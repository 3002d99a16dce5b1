# bestbooktolearn: the signed Product Advertising API request, modelled in Dafny

bestbooktolearn looks up books through Amazon's Product Advertising API. The client
(`amazon/amazon.go`) builds every request in four steps:

1. **Generate.** `generateAmazonURL` merges the caller's parameters over five fixed ones
   (Operation, Service, AWSAccessKeyId, Version, AssociateTag). It encodes them as a
   `url.Values` query on `http://<host>/onca/xml`.
2. **Timestamp.** `setTimestamp` parses the query again, sets `Timestamp` to the current UTC
   time in RFC 3339 form and re-encodes it.
3. **Sign.** `signAmazonURL` escapes `,` and `:`, sorts the `&`-separated pairs as whole
   strings and signs `GET\n<host>\n<path>\n<sorted query>` with HMAC-SHA256. It appends
   `&Signature=<escaped base64 of the MAC>`.
4. **Fetch.** `genSignAndFetch` sends the request and returns the body.

`Search` builds the parameters of an ItemSearch call and decodes the response. The books
facade (`books/books.go`) searches the "Books" index and turns every item into a `Book`.

The model is split into modules:

- `Text`: Go strings as byte sequences, with the byte order, `strings.Split`, `strings.Join`
  and `strings.Replace` on one byte.
- `Sorting`: the sort order of `sort.Strings`, an in-place sort of an `array`, and the sorted
  keys of a set.
- `Escape`: `url.QueryEscape` and `url.QueryUnescape`.
- `UrlValues`: `url.Values` with `Add`, `Set`, `Encode` and `ParseQuery`.
- `Strconv`: `strconv.FormatInt` in base 10 and a decimal reader.
- `Clock`: a UTC instant and its RFC 3339 text.
- `Urls`: a `url.URL` as a class whose fields are updated in place, and its `String()`.
- `Amazon`: the request pipeline and the response values.
- `Books`: the books facade.

The library code the pipeline calls without the model looking inside is passed in as the
`Amazon.Collaborators` value:

- `url.Parse`
- HMAC-SHA256 over the secret key
- base64
- the HTTP GET with reading of the body
- `xml.Unmarshal`

The clock is an `Instant` parameter.

The methods do what the Go functions do, step by step. Each is proved against a
specification function: `SignedRequest`, `FetchOutcome`, `SearchOutcome`, `CanonicalQuery`,
`TimestampedQuery`, `Encode` or `SortSeq`. The lemmas state what those functions
guarantee:

- `ParseQuery` reads back every encoded query.
- The timestamp step never meets its discarded error.
- The canonical query is the sorted permutation of the encoded pairs and is idempotent.
- The string to sign determines host, path and query.
- The canonical query determines the timestamped parameters, so any change to the host or to a
  parameter value changes the text that is signed.
- The RFC 3339 text determines the instant, so the same request made at two distinct instants
  signs two distinct texts.
- Two requests that differ only in their instant differ only in the Timestamp pair (and the
  signature after it).
- The signature is the last pair.
- Every item becomes exactly the book that describes it.

## Model

| member | source | states |
|---|---|---|
| Amazon.FixedParameters | amazon/amazon.go:295-300 | the five `Add` calls on empty values, in the order of the source; FixedParametersContents states the values they give |
| Amazon.MergedParameters | amazon/amazon.go:295-304 | the fixed values with every caller parameter set as the only value of its key; MergedParametersContents states what they hold |
| Amazon.MergedParametersContents | amazon/amazon.go:295-304 | the parameters hold exactly the five fixed keys and the caller's keys, one value each; a caller's value replaces the fixed one, and an untouched fixed key keeps the operation, service name, access key, API version or associate tag |
| Amazon.FixedParametersContents | amazon/amazon.go:295-300 | the five Adds on empty values give exactly Operation, Service, AWSAccessKeyId, Version and AssociateTag with one value each: the operation, `AWSECommerceService`, the access key, `2013-08-01` and the associate tag |
| Amazon.AddFresh | amazon/amazon.go:296-300 | adding to a key with no value gives it exactly that one value |
| Amazon.SetStep | amazon/amazon.go:302-304 | setting one more parameter extends the merged values by exactly that key |
| Amazon.SetAll | amazon/amazon.go:302-304 | setting the caller's parameters in whatever order the map is visited gives the values with every parameter as the only value of its key |
| Amazon.GenerateAmazonURL | amazon/amazon.go:284-310 | a host that does not parse gives a nil URL and the parse error; otherwise a new URL is returned: the parsed one with scheme `http`, the configured host, path `/onca/xml` and the encoded merged parameters as its query |
| Amazon.Redirected | amazon/amazon.go:291-293 | the parsed URL with its host, scheme `http` and path `/onca/xml` set and the given query; every other part is the parsed one, and RenderRedirected states its text |
| Amazon.TimestampedQuery | amazon/amazon.go:312-320 | the parse error of the query, or the encoding of the parsed values with Timestamp set to the RFC 3339 text of the instant; TimestampReplaces states what reads back |
| Amazon.StampedOrKept | amazon/amazon.go:312-320 | the query as setTimestamp leaves it: the stamped query, or the old one when it does not parse |
| Amazon.SetTimestamp | amazon/amazon.go:312-321 | a query that does not parse is left unchanged and its error returned; otherwise the query becomes the encoding of the parsed values with Timestamp set to the RFC 3339 text of the instant |
| Amazon.TimestampReplaces | amazon/amazon.go:313-318 | reading the new query back gives the old values with Timestamp holding exactly one value, the new stamp; no other key changes |
| Amazon.ParseTokensKeepsValues | amazon/amazon.go:313 | parsing never leaves a key without a value |
| Amazon.TimestampNeverFails | amazon/amazon.go:306-318 | the query generateAmazonURL produces always parses, so the error setTimestamp can return (and genSignAndFetch ignores) never occurs; the stamped query is the encoding of the merged parameters plus the timestamp |
| Amazon.StampedParameters | amazon/amazon.go:295-318 | the merged parameters with Timestamp set to the instant: every key carries one value, and the keys are the five fixed ones, the caller's and Timestamp |
| Amazon.EscapeCommasAndColons | amazon/amazon.go:324-325 | every `,` becomes `%2C`, then every `:` becomes `%3A`; PrePassAvoids states that neither remains |
| Amazon.CanonicalQuery | amazon/amazon.go:324-329 | the pre-passed query split on `&`, sorted as whole strings and joined with `&`; CanonicalQueryProperties and CanonicalIdempotent state its properties |
| Amazon.StringToSign | amazon/amazon.go:331 | `GET`, the host, the path and the canonical query on four lines; StringToSignInjective states that it determines them |
| Amazon.Signature | amazon/amazon.go:333-340 | the write error of the hash, or the query-escaped base64 of the HMAC-SHA256 of the string to sign under the secret key |
| Amazon.SignedQuery | amazon/amazon.go:341 | the canonical query followed by `&Signature=` and the signature; SignatureIsLast states its last pair |
| Amazon.SignedParts | amazon/amazon.go:323-342 | the hash error, or the URL whose query is the signed canonical query, every other part unchanged |
| Amazon.SignParts | amazon/amazon.go:238-243 | the hash error, or the text of the redirected URL carrying the given query, once signed |
| Amazon.SignedRequest | amazon/amazon.go:232-243 | the parse error of the host, or the signed URL text of the generated request whose query went through setTimestamp |
| Amazon.FetchOutcome | amazon/amazon.go:232-261 | the error of the first step that fails, or the body the fetch of the signed URL returns |
| Amazon.SortPairs | amazon/amazon.go:324-329 | escaping commas and colons, splitting on `&`, sorting the pairs in place and joining them gives the canonical query |
| Amazon.SignAmazonURL | amazon/amazon.go:323-344 | the signed string is built from the URL's host, path and canonical query; a hash error returns an empty URL and the error and leaves the query unchanged; otherwise the query becomes the canonical query followed by `&Signature=` and the escaped base64 MAC, and the whole URL text is returned |
| Amazon.PrePassAvoids | amazon/amazon.go:324-325 | after the two replacements no raw `,` or `:` remains |
| Amazon.CanonicalQueryProperties | amazon/amazon.go:324-329 | the canonical query holds no raw `,` or `:`; its pairs are the pairs of the escaped query, sorted and a permutation of them |
| Amazon.CanonicalIdempotent | amazon/amazon.go:324-329 | canonicalising a canonical query changes nothing |
| Amazon.PrePassKeepsEncoded | amazon/amazon.go:324-325 | on a query that `Values.Encode` produced, the comma and colon replacements change nothing |
| Amazon.CanonicalOfEncoded | amazon/amazon.go:306-329 | the canonical form of a non-empty encoded query is the join of its encoded pairs, sorted, and splitting it gives those sorted pairs back |
| Amazon.StringToSignInjective | amazon/amazon.go:331 | when host and path hold no newline, two strings to sign are equal exactly when host, path and query are equal |
| Amazon.CanonicalPairs | amazon/amazon.go:306-329 | with one value per key, the pieces of the canonical query of an encoding are its pairs in some order, none of them empty; an empty set of values leaves the single empty piece |
| Amazon.CanonicalDeterminesValues | amazon/amazon.go:306-329 | for two sets of values with one value per key, the canonical queries of their encodings are equal exactly when the sets are equal |
| Amazon.SignedTextDeterminesRequest | amazon/amazon.go:295-331 | for hosts without a newline, two requests sign the same text exactly when their hosts are equal and their timestamped parameters are equal, so a change to the host or to any parameter value changes the text that is signed |
| Amazon.DistinctInstantsSignDistinctText | amazon/amazon.go:232-243 | for a host without a newline, the same request made at two distinct instants signs two distinct texts: each signed request is unique in time |
| Amazon.SignedLines | amazon/amazon.go:331 | the lines of the string to sign are GET, the host, the path and the lines of the query |
| Amazon.SignatureIsLast | amazon/amazon.go:339-342 | the escaped signature holds no `&`, so `Signature=<signature>` is exactly the last pair of the signed query, after the pairs of the canonical query |
| Amazon.OnlyTimestampDiffers | amazon/amazon.go:232-243 | two requests built from the same inputs at two instants differ only in their Timestamp pair: a pair of one canonical query other than its Timestamp pair is a pair of the other, and the converse |
| Amazon.GenSignAndFetch | amazon/amazon.go:232-261 | a parse or hash error is returned before any request; otherwise the result is the fetch of the signed URL: the parsed URL redirected to `/onca/xml` with the canonical timestamped query and its signature |
| Amazon.SignedRequestShape | amazon/amazon.go:232-243 | the signed URL is signed over the merged parameters with Timestamp set, encoded, and with their pairs sorted; splitting that canonical query gives the sorted pairs |
| Amazon.StampedCanonical | amazon/amazon.go:317-329 | a timestamped parameter set with one value per key canonicalises to its sorted encoded pairs |
| Amazon.RenderRedirected | amazon/amazon.go:291-293 | a parsed host with no opaque part and no fragment, given a non-empty query, renders as `http://` + host + `/onca/xml?` + query |
| Amazon.SearchParameters | amazon/amazon.go:266-271 | the four ItemSearch parameters, with the keywords escaped and the page in decimal; SearchParametersContents states them |
| Amazon.SearchParametersContents | amazon/amazon.go:266-271 | the ItemSearch parameters are Keywords, ResponseGroup, ItemPage and SearchIndex; ItemPage reads back as the page, negatives included; Keywords unescapes to the keywords; the index and the response group are verbatim |
| Amazon.SearchOutcome | amazon/amazon.go:265-282 | the fetch error, or the decoding of the fetched body |
| Amazon.Search | amazon/amazon.go:265-282 | a fetch error is returned without decoding; otherwise the result is the decoding of the fetched body |
| Books.ToBooks | books/books.go:36-53 | one book per item, in order: title and ISBN from the item's title and EAN, URL from its detail page, and a large image exactly when the item has one, with the same URL, width and height |
| Books.Search | books/books.go:30-55 | a search of the "Books" index; its error is returned as it is, otherwise every item of the response becomes the book describing it, in order |
| Books.Describes | books/books.go:38-51 | a book describes an item when its title, ISBN and URL are the item's title, EAN and detail page, and it has a large image exactly when the item does, with the same URL, width and height |
| Books.DescribesUnique | books/books.go:38-51 | the book made from an item is determined by the item |
| Escape.QueryEscape | amazon/amazon.go:340 | every byte of an escaped string is unreserved, `%` or `+`, and the result is one to three times as long as the input |
| Escape.QueryUnescape | amazon/amazon.go:313 | `%` followed by two hex digits is that byte, `+` is a space, any other byte is itself; a `%` without two hex digits after it is an escape error; EscapeRoundTrip states that it undoes QueryEscape |
| Escape.HexDigit | amazon/amazon.go:340 | a hex digit of an escape is an unreserved byte |
| Escape.Unhex | amazon/amazon.go:313 | a hex digit reads as a value below 16 |
| Escape.UnescapeByte | amazon/amazon.go:313 | unescaping the escape of one byte followed by more text gives that byte followed by the unescaped rest |
| Escape.EscapeRoundTrip | amazon/amazon.go:267 | `QueryUnescape(QueryEscape(s))` is `s` for every byte string |
| Escape.EscapedHasNoReserved | amazon/amazon.go:340 | escaped text holds no `,` `:` `&` `=` or `;` |
| UrlValues.Add | amazon/amazon.go:296-300 | the value is appended to the key's list, and a key not yet present starts a list of its own |
| UrlValues.Set | amazon/amazon.go:303 | the value becomes the only value of the key; other keys keep their values |
| UrlValues.Encode | amazon/amazon.go:306 | the `key=value` pairs of the sorted keys, each key's values in list order, both halves escaped, joined with `&`; ParseEncodeRoundTrip states that it reads back |
| UrlValues.KeyTokens | amazon/amazon.go:306 | a key with n values is encoded as n pairs |
| UrlValues.TokenShape | amazon/amazon.go:306 | an encoded pair is non-empty, consists of escaped bytes and `=`, and holds no `&` or `;` |
| UrlValues.TokensOfShape | amazon/amazon.go:306 | every encoded pair is non-empty and free of `&`, `,` and `:` |
| UrlValues.KeyTokenAt | amazon/amazon.go:306 | the i-th pair of a key is its key and i-th value, escaped and joined by `=` |
| UrlValues.EncodeTokensShape | amazon/amazon.go:306 | every pair of an encoded query is non-empty and free of `&`, `,` and `:` |
| UrlValues.EncodeHasNoCommaOrColon | amazon/amazon.go:306 | an encoded query holds no raw `,` or `:` |
| UrlValues.EncodeTokensNonEmpty | amazon/amazon.go:306 | a non-empty set of values, each key with a value, encodes to at least one pair |
| UrlValues.ParseTokensAppend | amazon/amazon.go:313 | parsing two runs of pairs one after the other is parsing the first and continuing with the second |
| UrlValues.CutAtFirst | amazon/amazon.go:313 | a pair is cut at its first `=` into its key and value |
| UrlValues.ParsePiece | amazon/amazon.go:313 | a piece holding `;` is skipped and sets the semicolon error, replacing any earlier one; an empty piece is skipped; any other is cut at its first `=` and both halves unescaped, and a piece that fails to unescape is skipped, its error kept only when none was recorded |
| UrlValues.ParseQuery | amazon/amazon.go:313 | the pieces between `&` read one after another from empty values; any error recorded makes the parse fail with that error |
| UrlValues.ParseToken | amazon/amazon.go:313 | parsing one encoded pair appends its value to its key |
| UrlValues.ExtendStep | amazon/amazon.go:313 | appending values one at a time appends them all |
| UrlValues.ParseKeyTokens | amazon/amazon.go:313 | parsing the pairs of one key appends all its values in order |
| UrlValues.ParseTokensOf | amazon/amazon.go:313 | parsing the pairs of distinct keys not yet present adds exactly those keys with all their values |
| UrlValues.RestrictCons | amazon/amazon.go:313 | the values restricted to a key followed by more keys are that key's values added to the rest |
| UrlValues.ParseEncodeRoundTrip | amazon/amazon.go:313-318 | `ParseQuery(Encode(v))` succeeds and gives back `v` whenever every key has a value |
| UrlValues.SemicolonErrorWins | amazon/amazon.go:313 | a query whose last piece holds `;` fails with the semicolon error, whatever error an earlier piece recorded |
| UrlValues.TokenInjective | amazon/amazon.go:306 | an encoded pair determines its key and its value |
| UrlValues.TokensOfOne | amazon/amazon.go:306 | with one value per key, the i-th pair is the pair of the i-th key |
| UrlValues.EncodedPair | amazon/amazon.go:306 | with one value per key, the pair of every key is written |
| UrlValues.EncodedPairKey | amazon/amazon.go:306 | with one value per key, every pair written is the pair of some key |
| UrlValues.Covered | amazon/amazon.go:306 | with one value per key, when every pair one set writes is written by another, every key of the first is a key of the second with the same value |
| UrlValues.EncodeTokensDetermine | amazon/amazon.go:306 | with one value per key, the pairs written, in any order, determine the values |
| UrlValues.PairsOf | amazon/amazon.go:306 | with one value per key, a pair is written exactly when it is the pair of some key |
| UrlValues.SetOnlyDiffers | amazon/amazon.go:317-318 | setting one key to one value or to another leaves every other pair of the encoding alike: a pair other than that key's is written in both encodings or in neither |
| Sorting.Insert | amazon/amazon.go:328 | inserting into a sorted sequence keeps it sorted and adds exactly the new element |
| Sorting.SortSeq | amazon/amazon.go:328 | the sorted sequence is in order and a permutation of its input |
| Sorting.SortedUnique | amazon/amazon.go:328 | two sorted sequences with the same elements are equal, so the result of sorting does not depend on the algorithm |
| Sorting.SortSorted | amazon/amazon.go:328 | sorting a sorted sequence changes nothing |
| Sorting.SortStrings | amazon/amazon.go:328 | sorting the array in place leaves exactly the sorted sequence of its old contents |
| Sorting.Sink | amazon/amazon.go:328 | one insertion step: the element at i moves down so that the first i+1 elements are sorted, the array holds the same elements, and those after i stay where they are |
| Sorting.Swap | amazon/amazon.go:328 | two neighbours trade places and nothing else changes |
| Sorting.LeastExists | amazon/amazon.go:306 | a non-empty set of strings has a least element |
| Sorting.LeastUnique | amazon/amazon.go:306 | the least element of a set is unique |
| Sorting.SortedKeys | amazon/amazon.go:306 | the keys of the values, in strictly increasing order, each exactly once |
| Sorting.SortSeqAvoids | amazon/amazon.go:328 | sorting introduces no new byte into any element |
| Text.Below | amazon/amazon.go:328 | the byte-wise order `sort.Strings` uses: a prefix comes first, otherwise the first differing byte decides |
| Text.BelowReflexive | amazon/amazon.go:328 | the string order is reflexive |
| Text.BelowAntisymmetric | amazon/amazon.go:328 | the string order is antisymmetric |
| Text.BelowTransitive | amazon/amazon.go:328 | the string order is transitive |
| Text.BelowTotal | amazon/amazon.go:328 | any two strings are comparable |
| Text.Join | amazon/amazon.go:329 | the pieces with the separator between each two; JoinSplit and SplitJoin state that it undoes Split |
| Text.Split | amazon/amazon.go:327 | a split yields at least one piece |
| Text.SplitPiecesFree | amazon/amazon.go:327 | no piece of a split holds the separator |
| Text.JoinSplit | amazon/amazon.go:327-329 | joining the pieces of a split gives the original string back |
| Text.SplitJoin | amazon/amazon.go:327-329 | splitting a join of at least one separator-free piece gives the pieces back |
| Text.SplitNoSeparator | amazon/amazon.go:327 | a string without the separator splits into itself |
| Text.SplitAfterPiece | amazon/amazon.go:327 | a separator-free piece followed by the separator splits into that piece followed by the split of the rest |
| Text.SplitConcat | amazon/amazon.go:331 | splitting a + separator + b is the split of a followed by the split of b |
| Text.SplitPiecesAvoid | amazon/amazon.go:327 | a byte absent from the string is absent from every piece |
| Text.ReplaceAll | amazon/amazon.go:324-325 | every occurrence of the byte replaced by the replacement, the other bytes kept in order |
| Text.ReplaceAllAvoids | amazon/amazon.go:324-325 | a byte missing from the replacement is absent after the replacement when it is the replaced byte or when the string did not hold it either |
| Text.ReplaceAllAbsent | amazon/amazon.go:324-325 | replacing a byte that does not occur changes nothing |
| Text.JoinBytes | amazon/amazon.go:329 | a byte other than the separator that is absent from every piece is absent from the join |
| Strconv.FormatInt | amazon/amazon.go:269 | the decimal text of the number, with `-` before a negative one; FormatIntRoundTrip states that it reads back |
| Strconv.FormatNat | amazon/amazon.go:269 | the decimal text is at least one digit, all digits, with no leading zero; a number below 10^k has at most k digits, for k up to 4 (exactly one digit below 10) |
| Strconv.DigitChar | amazon/amazon.go:269 | a digit value renders as a decimal digit |
| Strconv.DigitValue | amazon/amazon.go:269 | a decimal digit reads as a value below 10 |
| Strconv.FormatNatValue | amazon/amazon.go:269 | the decimal digits read back as the number |
| Strconv.FormatIntRoundTrip | amazon/amazon.go:269 | reading the decimal rendering of any page number gives it back, negative numbers included |
| Clock.FormatRFC3339 | amazon/amazon.go:317 | year, month, day, hour, minute and second zero-padded, separated as `YYYY-MM-DDThh:mm:ssZ`, with `-` before a negative year; RFC3339Layout states its layout |
| Clock.Pad | amazon/amazon.go:317 | a zero-padded number is all digits, at least as wide as asked |
| Clock.PadWidth | amazon/amazon.go:317 | a number that fits the width is padded to exactly that many digits |
| Clock.LayoutOf | amazon/amazon.go:317 | four digits, then five two-digit fields joined by `-`, `-`, `T`, `:`, `:` and ended by `Z` give the RFC 3339 layout |
| Clock.RFC3339Layout | amazon/amazon.go:317 | for a four-digit year the stamp is 20 bytes laid out as `YYYY-MM-DDThh:mm:ssZ`, with digits in every field |
| Clock.YearText | amazon/amazon.go:317 | the year field: the year zero-padded to four digits, with `-` before a negative year; YearTextInjective states that it determines the year |
| Clock.Stamp | amazon/amazon.go:317 | the six fields of a stamp with the given marks between them and after the last |
| Clock.FormatIsStamp | amazon/amazon.go:317 | the RFC 3339 text is the stamp of the year field and the padded month, day, hour, minute and second, marked by `-`, `T`, `:` and `Z` |
| Clock.PeelRight | amazon/amazon.go:317 | two concatenations whose right parts are equally long are equal only when both their left parts and their right parts are |
| Clock.StampInjective | amazon/amazon.go:317 | with the same marks and two-byte fields after the year, equal stamps have equal fields |
| Clock.LeadingZero | amazon/amazon.go:317 | a zero in front of digits leaves them digits and does not change their value |
| Clock.PadValue | amazon/amazon.go:317 | the zero-padded digits of a number read back as the number, whatever the width |
| Clock.YearTextInjective | amazon/amazon.go:317 | equal year fields come from equal years, negative years included |
| Clock.FormatRFC3339Injective | amazon/amazon.go:317 | two instants have the same RFC 3339 text exactly when they are the same instant |
| Urls.Url.constructor | amazon/amazon.go:286 | the URL holds exactly the parts the parse returned |
| Urls.Render | amazon/amazon.go:343 | the text of URL parts: the scheme and `:` when there is a scheme; then the opaque part, or else `//` and the host (when there is a scheme or a host, and a host or a path), a `/` before a path that lacks one under a host, and the path; then `?` and the query, and `#` and the fragment, each when not empty |
| Urls.Url.String | amazon/amazon.go:343 | the text of the URL's current parts |

## Left out

- The HTTP request and the reading of the body (`api.Client.Get`, `ioutil.ReadAll`, the default-client fallback) are the `httpGet` collaborator. Their errors are passed on unchanged.
- `url.Parse`, the HMAC-SHA256 hash, base64 and `xml.Unmarshal` are collaborators: only what the pipeline does with their results is modelled.
- `time.Now()` is the `Instant` parameter. Its conversion to UTC is taken as given.
- `url.URL.String` is modelled without the escaping it applies to host, path and fragment, and without user information. It also leaves out the `./` Go writes before a path with no scheme and no host whose first segment holds a `:`, and the bare `?` written when `ForceQuery` is set; neither arises here, since the scheme is always `http` and the signed query is never empty. `url.URL` keeps only the fields the pipeline touches.
- `url.ParseQuery` is modelled in its Go 1.17 and later form: a piece holding `;` is skipped and sets the semicolon error, which replaces any error recorded before it, while an unescape error is kept only when it is the first. Empty pieces are skipped.
- Clock.RFC3339Layout: the layout is only stated for years 0 to 9999, where RFC 3339 applies.
- Amazon.Search returns only the error when decoding fails. The partially decoded response Go also returns is not modelled.
- Books.Search requires that every item of a successful response carries attributes. Go dereferences `ItemAttributes` and panics when it is nil.
- The response types are modelled only as far as the search uses them. The offers, offer summary, browse nodes, image sets, editorial reviews, the ItemLookup and BrowseNodeLookup responses and the `AWSResponse` header are not modelled.
- Sorting.SortStrings sorts by insertion, where Go uses its own algorithm. Two sorted permutations of the same strings are equal (`Sorting.SortedUnique`), so the result is the same.
- `books.New` is the `Books.API` constructor itself.
- `main.go` (the web server) is not part of this model.
- The search keywords are query-escaped in `Search` and escaped again by `Values.Encode`, so the signed query carries them escaped twice. The model keeps this; `SearchParametersContents` states the single unescape.
