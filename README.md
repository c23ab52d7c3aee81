# pingdom-2-checkly in Dafny

A verified model of the check translator in `index.js`. The tool reads the
HTTP checks of a Pingdom account and re-creates each one as a Checkly API
check. The model covers two parts:

- `convertCheck` and its helpers turn one Pingdom detail record into one
  Checkly check. This covers the URL and protocol, the assertions, the request
  headers, the location list and the tags.
- The driver loop of `pingdomToCheckly` drops paused checks. It then fetches
  the detail of every other check and splits them into converted HTTP checks
  and checks that could not be converted.

Modules, one per file:

- `Pingdom` (`pingdom.dfy`) holds the input records. `type.http` is an
  `Option<HttpSettings>`. The `requestheaders` object is the sequence of its
  `(key, value)` entries in `Object.keys` order. `shouldcontain` and
  `shouldnotcontain` are optional strings, tested with JavaScript truthiness,
  so absent and `""` behave the same.
- `Checkly` (`checkly.dfy`) holds the output records. The request's `method`
  property is named `requestMethod`, because `method` is a Dafny keyword.
- `Translator` (`translator.dfy`) holds the region constants, spelled as in the
  source. That includes the space in `"region: LATAM"` and the leading space in
  `" eu-central-1"`; both are reproduced as written. The JavaScript pushes into
  arrays for the assertions, the headers and the converted check, so those
  parts are methods (`CreateAssertions`, `CreateHeaders`, `ConvertCheck`). Each
  method is proved equal to a specification function (`AssertionsFor`,
  `KeptHeaders`, `Conversion`), and the lemmas state what those functions
  promise. The if-cascade `createLocations` and the `map` in `createTags` are
  functions.
- `Migration` (`migration.dfy`) holds the driver. It takes the check listing
  as a parameter. The `GET /checks/{id}` request becomes a function `fetch`
  from a check id to its detail record. The loop is a method proved equal to
  the specification functions `ConvertedChecks` and `Unconvertible`.
- `Seqs` (`seqs.dfy`) holds `Filter` and `Map`, which stand for
  `Array.prototype.filter` and `Array.prototype.map`.
- `Ascii` (`ascii.dfy`) holds ASCII lower-casing for `toLowerCase`.

Probe filters are matched with `Array.prototype.includes`
(index.js:141-144). That is exact membership of a whole element, not a search
for a substring inside an element, and the model follows the code.
`LocationsMatchWholeElements` shows the difference: `"region:LATAM"` (no
space) and `"region:EU,region:NA"` both give the default list.

## Model

| member | source | states |
|---|---|---|
| `Translator.CreateAssertions` | index.js:99-126 | builds the list by pushing, and the result is exactly `AssertionsFor` of the HTTP settings |
| `Translator.AssertionsShape` | index.js:99-125 | the first assertion is always STATUS_CODE/"200"/""/EQUALS; the count is 1 + [shouldcontain truthy] + [shouldnotcontain truthy]; a CONTAINS assertion with target t is present iff shouldcontain is truthy and equals t, and likewise for NOT_CONTAINS, which comes last |
| `Translator.KeptHeaders` | index.js:128-138 | a header {k, v} is in the output iff (k, v) is a request-header entry whose key does not lower-case to "user-agent"; the output is no longer than the input |
| `Translator.CreateHeaders` | index.js:128-138 | the loop over the keys (skipped when there are none) yields exactly `KeptHeaders` of the entries |
| `Translator.KeptHeadersAppend` | index.js:131-135 | keeping headers distributes over concatenation, so kept entries keep their relative order |
| `Translator.KeptHeadersSingle` | index.js:132-133 | one entry is kept, with its key casing and value unchanged, exactly when its key is not User-Agent |
| `Translator.UserAgentIgnoresCase` | index.js:132 | a key is dropped iff it is "user-agent" spelled with any mix of upper and lower case |
| `Translator.HeadersScenario` | index.js:128-138 | entries User-Agent: x and X-Foo: bar give only {X-Foo, bar} |
| `Translator.CreateLocations` | index.js:140-146 | the result is always one of the five fixed region lists |
| `Translator.LocationsPriority` | index.js:140-146 | LATAM is chosen iff its filter is an element; APAC iff LATAM's is not and APAC's is; EU iff neither LATAM's nor APAC's is and EU's is; NA likewise; default iff none of the four is |
| `Translator.CreateLocationsIsFirstMatch` | index.js:6-12 | the cascade equals a first-match lookup in the priority table (LATAM, APAC, EU, NA) falling back to the default list |
| `Translator.FirstMatchEarliest` | index.js:141-144 | the lookup returns the regions of the earliest table row whose filter is present |
| `Translator.FirstMatchNone` | index.js:145 | the lookup returns the fallback when no row's filter is present |
| `Translator.LocationsMatchWholeElements` | index.js:141-144 | filters match as whole elements: "region:LATAM" and "region:EU,region:NA" give the default list |
| `Translator.CreateTags` | index.js:148-152 | one name per source tag, in order: names[i] is tags[i].name |
| `Translator.ConvertCheck` | index.js:64-97 | the mutated request plus the pushed "pingdom" tag yields exactly `Conversion` of the check |
| `Translator.ConversionFixedFields` | index.js:88-96 | name is copied, checkType is "API", frequency is resolution, activated is true, the request method is "GET" |
| `Translator.ConversionUrl` | index.js:68-71 | the URL is "https://" + hostname + path when the port is 443 and "http://" + hostname + path otherwise; it starts with "https://" iff the port is 443 |
| `Translator.UrlIgnoresPortValue` | index.js:68-71 | changing the port without crossing 443 leaves the URL unchanged, so the port is never written into it |
| `Translator.ConversionTags` | index.js:85-86 | the tags are the source tag names in order followed by "pingdom", so there are one more than the source's and the last is "pingdom" |
| `Translator.ConversionParts` | index.js:76-82 | the request's first assertion is the status one and there are at most three; no header key lower-cases to "user-agent"; no entries give no headers; the locations are one of the five lists |
| `Translator.HomepageScenario` | index.js:64-97 | the Homepage check (port 443, shouldcontain "OK", no headers, filter region:EU, tag web) becomes the expected Checkly check with the EU list and tags web, pingdom |
| `Migration.NonPausedChecks` | index.js:30-33 | every remaining check is a listed check with status other than "paused", and every listed check not paused remains |
| `Migration.NonPausedAppend` | index.js:31-33 | the paused filter distributes over concatenation, so listing order is kept |
| `Migration.FetchAll` | index.js:38-39 | one detail record per remaining check, in order, each fetched by that check's id |
| `Migration.Unconvertible` | index.js:42-44 | every set-aside record is a fetched record without `type.http`, and every such record is set aside |
| `Migration.PingdomToCheckly` | index.js:29-49 | the loop's two lists are exactly `ConvertedChecks` and `Unconvertible` of the fetched details of the non-paused checks |
| `Migration.PartitionCounts` | index.js:38-49 | converted count plus rejected count equals the number of non-paused checks, and the converted count is the number of HTTP checks |
| `Migration.ConvertedChecksAreConversions` | index.js:45-48 | the i-th converted check is `Conversion` of the i-th HTTP check among the details |
| `Migration.ConvertedChecksAppend` | index.js:37-49 | converting distributes over concatenation, so converted checks keep their relative order |
| `Ascii.ToLower` | index.js:132 | lower-casing keeps the length and maps each character by ASCII case mapping |
| `Ascii.ToLowerEqualsIff` | index.js:132 | a string lower-cases to a lower-case target iff it spells the target with any mix of cases |
| `Seqs.Filter` | index.js:31-33 | the result holds exactly the elements that satisfy the predicate and is no longer than the input |
| `Seqs.FilterAppend` | index.js:31-33 | filtering distributes over concatenation, so order is kept |
| `Seqs.FilterComplementLength` | index.js:41-48 | filtering by a predicate and by its negation splits the sequence: the two lengths add up to its length |
| `Seqs.Map` | index.js:149-151 | the result has one element per input element, the function applied to it |

## Left out

- The axios clients, the `GET /checks`, `GET /checks/{id}` and `POST /checks` calls, and the `await` sequencing (index.js:16-29, 39, 58-61) are network I/O. The listing is a parameter and the detail fetch is the function `fetch`. The loop that posts the converted checks is not modelled.
- All `console.log` and `console.error` output (index.js:28, 35, 43, 51-56, 65) is logging only. That includes the loop that logs `check.name` of each pushed response, which is always undefined.
- `couldNotConvert` is a module-level array that holds the whole axios response. The model returns the rejected detail records as the driver's second result instead. The process makes only one call, so the array starts empty.
- The minimist argument parsing and `process.exit` (index.js:3, 154-164) are command-line plumbing.
- Translator.IsUserAgent: uses ASCII lower-casing, not JavaScript's full Unicode `toLowerCase`. For a comparison with "user-agent" the two agree. The only non-ASCII characters whose lower case contains an ASCII letter are U+0130 (to "i") and the Kelvin sign (to "k"), and neither letter occurs in "user-agent".
- `Object.keys` puts integer-like keys first. The model takes the entries in the order given, and assumes the keys are distinct as in a JavaScript object. Each entry's own value stands for `requestheaders[key]`.
- `createLocations` returns the shared module-level arrays, which a caller could alias and mutate. The model returns values, so aliasing is not captured.
- Malformed records are not modelled. A check without `requestheaders`, `probe_filters` or `tags` makes the JavaScript throw; the model's records always have these fields. `Translator.ConvertCheck` requires `type.http`, which the driver checks before calling it.
- `hostname`, `url` and `resolution` are typed as string, string and integer. JavaScript would also concatenate `undefined` or a number into the URL.
