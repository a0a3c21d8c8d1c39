# CI-aware build wrapper and edge responder, modelled in Dafny

The repository holds two small scripts.

* `ci-aware-build.js` runs before the web bundler. It prints a report of the
  continuous-integration variables found in the process environment, then
  starts `vite build` and exits with the bundler's exit code.
  A variable counts when its name starts with `GITHUB`, `CI`, `RUNNER` or
  `CLOUDFLARE`, in any ASCII case. Values longer than 55 characters are shown
  as their first 52 characters followed by `...`.
* `workers-entry.js` is a fetch handler for an edge runtime. It answers `/`
  and `/index.html` with one constant HTML page, and any other path with a
  404 `Resource not available`.

The model has three modules.

* `JsRuntime` (`js_runtime.dfy`) models the JavaScript behaviour the
  scripts rely on:
  * strings as sequences of UTF-16 code units (`CodeUnit`, `JsString`),
    used by `CiAwareBuild`, whose values are measured and sliced;
  * `null`-or-value as `Option`, used by both modules;
  * the decimal rendering `${n}` of a count (`ToDecimal`), with its reading
    partner `DecimalValue`.
* `CiAwareBuild` (`ci_aware_build.dfy`) models the rest of
  `ci-aware-build.js`:
  * the name pattern, both as a declarative prefix test and as a matcher
    that runs code unit by code unit;
  * `truncateIfNeeded`;
  * `gatherCiData`, a loop proved against the filter function `CiEntries`;
  * `printCiInfo` with its two banners, a loop proved against the function
    `Report` that lists the strings handed to `console.log`;
  * the exit-status mapping `exitCode || 0`.
* `WorkersEntry` (`workers_entry.dfy`) models `handleIncomingRequest`, the
  `Response` constructor's status default, and the constant page of
  `buildHtmlPage`. The page is kept as the lines of its template literal.
  Its pathnames, headers and bodies are Dafny `string`s: the handler only
  compares a parsed pathname, which is percent-encoded ASCII, for equality,
  and never measures or slices a string.
  The 404 body is `Resource not available` with no closing period, exactly
  as workers-entry.js:15 writes it.

The environment is an ordered sequence of `EnvEntry(varName, varValue)`.
Values and names are `JsString`, so `length` and `slice(0, 52)` count
exactly what JavaScript counts. A value whose 52nd and 53rd code units form
a surrogate pair is cut between them, as in the source.

The name test is a regular expression with the `i` flag and without the
`u` flag. Under that flag no non-ASCII code unit case-folds onto an ASCII
letter. All four alternatives are upper-case ASCII, so ASCII folding
(`Fold`) decides the test exactly.

## Model

| member | source | states |
|---|---|---|
| `JsRuntime.ToDecimal` | ci-aware-build.js:41 | the count in the header is written with decimal digits only, at least one, with no leading zero except for 0 itself |
| `JsRuntime.DecimalRoundTrip` | ci-aware-build.js:41 | reading back the rendered count gives the count |
| `JsRuntime.ToDecimalInjective` | ci-aware-build.js:41 | different counts give different headers' digits |
| `CiAwareBuild.Fold` | ci-aware-build.js:3 | the case folding of the `i` flag against an ASCII pattern: a lower-case ASCII letter becomes its upper-case form, every other code unit is kept, and no result is a lower-case ASCII letter |
| `CiAwareBuild.AlternativesSpellPattern` | ci-aware-build.js:3 | the four alternatives are the code units of `GITHUB`, `CI`, `RUNNER`, `CLOUDFLARE` |
| `CiAwareBuild.AlternativeTest` | ci-aware-build.js:3 | matching one alternative code unit by code unit from the start succeeds exactly when the name begins with it up to ASCII case |
| `CiAwareBuild.PatternTest` | ci-aware-build.js:25 | `envCheckPatterns.test(name)` holds exactly when the name begins with one of the four prefixes, ignoring ASCII case |
| `CiAwareBuild.MatchIgnoresCase` | ci-aware-build.js:3 | two names that differ only in ASCII case are both kept or both dropped |
| `CiAwareBuild.MatchIsPrefixClosed` | ci-aware-build.js:3 | the pattern has no end anchor: anything appended to a matching name still matches |
| `CiAwareBuild.MatchingExamples` | ci-aware-build.js:3 | `ci_x`, `Circle`, `github_token` and `CIRCLECI` match |
| `CiAwareBuild.RunnerAndCloudflareExamples` | ci-aware-build.js:3 | `runner_os` and `CloudFlare_API` match |
| `CiAwareBuild.NonMatchingExamples` | ci-aware-build.js:3 | `MY_CI`, `XGITHUB`, `C` and `RUNNE` do not match: the prefix must be whole and at the start |
| `CiAwareBuild.TruncateIfNeeded` | ci-aware-build.js:15-19 | the result has at most 55 code units; it equals the value exactly when the value has at most 55; a longer value becomes its first 52 code units followed by `...` |
| `CiAwareBuild.TruncateIdempotent` | ci-aware-build.js:15-19 | truncating twice gives the same as truncating once |
| `CiAwareBuild.CiEntries` | ci-aware-build.js:21-31 | the gathered list is never longer than the environment |
| `CiAwareBuild.CiEntriesMembership` | ci-aware-build.js:21-31 | an entry is gathered exactly when it is in the environment and its name matches |
| `CiAwareBuild.MatchingPositionsSelect` | ci-aware-build.js:21-31 | the gathered entries are the environment's entries at strictly increasing positions, unchanged |
| `CiAwareBuild.MatchingPositionsExact` | ci-aware-build.js:21-31 | those positions are exactly the positions whose names match |
| `CiAwareBuild.CiEntriesExact` | ci-aware-build.js:21-31 | the gathered list is exactly the subsequence of matching entries in environment order, names and values unchanged |
| `CiAwareBuild.CiEntriesAppend` | ci-aware-build.js:24-28 | gathering from two environments in a row gives the two gathered lists in that order |
| `CiAwareBuild.CiEntriesIdempotent` | ci-aware-build.js:21-31 | gathering from the gathered entries finds all of them again |
| `CiAwareBuild.GatherCiData` | ci-aware-build.js:21-31 | the loop that pushes each entry passing the pattern test returns exactly `CiEntries(env)` |
| `CiAwareBuild.Border` | ci-aware-build.js:6-13 | `'*'.repeat(70)` is exactly 70 code units, each a `*` |
| `CiAwareBuild.StartBanner` | ci-aware-build.js:6-9 | the `announceStart` string is a line break, a rule of 70 `*`, a line break, the title, a line break, a rule of 70 `*` and a final line break |
| `CiAwareBuild.EndBanner` | ci-aware-build.js:11-13 | the `announceEnd` string is a line break, a rule of 70 `*` and a line break, 72 code units in all |
| `CiAwareBuild.FoundHeader` | ci-aware-build.js:41 | the count header starts with `  >> Found `, ends with ` CI environment entries:` and a line break, and has only decimal digits between the two |
| `CiAwareBuild.EntryLine` | ci-aware-build.js:43 | an entry line starts with five spaces and the variable's full name; it is at most 55 code units longer than those and the two-code-unit separator `: `, because the value is shortened |
| `CiAwareBuild.Report` | ci-aware-build.js:33-48 | the logged strings begin with the opening banner and end with the closing banner; there are 3 of them with no match, and 3 more than the number of gathered entries otherwise |
| `CiAwareBuild.PrintCiInfo` | ci-aware-build.js:33-48 | the strings logged, one per `console.log`, are exactly `Report(env)` |
| `CiAwareBuild.LocalBuildReport` | ci-aware-build.js:38-39 | with no matching variable the report is the opening banner, the local-build line and the closing banner, and no line carries the entry indent |
| `CiAwareBuild.CiReport` | ci-aware-build.js:40-45 | with a matching variable the report is the opening banner, the count header, one line `     NAME: truncate(VALUE)` per gathered entry in gathered order, then the closing banner, and the local-build line is absent |
| `CiAwareBuild.HeaderCarriesCount` | ci-aware-build.js:41 | in a report with a matching variable, the digits of the second logged string read back as the number of gathered entries |
| `CiAwareBuild.ReportIsBracketed` | ci-aware-build.js:6-13 | the report opens with a line of exactly 70 `*` and ends with a line of exactly 70 `*` |
| `CiAwareBuild.ExitStatus` | ci-aware-build.js:57-59 | the status is 0 exactly when the child's code is null or 0; any other code is passed on unchanged |
| `WorkersEntry.NewResponse` | workers-entry.js:10-15 | for a string body and a status the constructor accepts with it (none, or 200 to 599 other than the null-body statuses 204, 205 and 304), the body and headers are the ones given; the status is the given one, or 200 when the init object names none |
| `WorkersEntry.HandleIncomingRequest` | workers-entry.js:5-16 | status 200 exactly for the pathnames `/` and `/index.html`, with the page and only the header `content-type: text/html;charset=UTF-8`; every other pathname gets 404, body `Resource not available` and no headers of its own |
| `WorkersEntry.IndexServesRoot` | workers-entry.js:9 | `/index.html` gets the same response as `/` |
| `WorkersEntry.OnlyPathnameMatters` | workers-entry.js:6-9 | two requests with the same pathname get the same response, whatever their method, query string or headers |
| `WorkersEntry.NearMissesAreNotFound` | workers-entry.js:9-15 | `/INDEX.HTML`, `/Index.html`, `/index.htm`, `/index.html/`, `//`, the empty path and `/index` all get 404: the comparison is exact and case-sensitive |
| `WorkersEntry.RoutingIsExhaustive` | workers-entry.js:9-15 | every request gets either the page response or the not-found response |
| `WorkersEntry.NotFoundBodyHasNoPeriod` | workers-entry.js:15 | the not-found body is the 22-character phrase, with no closing period |
| `WorkersEntry.JoinLinesContains` | workers-entry.js:19-71 | every line of the page's template literal appears inside the page |
| `WorkersEntry.HeadingNamesDeployment` | workers-entry.js:65 | the heading line contains `Cloudflare Workers Deployment` |
| `WorkersEntry.PageShowsDeployment` | workers-entry.js:18-72 | the page, the same constant on every call, contains `Cloudflare Workers Deployment` |
| `WorkersEntry.BuildHtmlPage` | workers-entry.js:18-72 | the page starts with `<!DOCTYPE html>` and ends with `</html>` |

## Left out

- Starting the bundler is not modelled. This covers `spawn('npx', ['vite', 'build'])` with a shell and inherited stdio, the `close` event and `process.exit`. It is process management; only the mapping `exitCode || 0` is kept, as `ExitStatus`.
- `ExitStatus`: the operating system keeps only the low 8 bits of the status passed to `process.exit`. This is not modelled; the status is the child's code as an integer.
- Reading `process.env` is not modelled, nor the order in which `Object.entries` lists it. The environment is a given ordered sequence.
- Console output is not written. `Report` and `PrintCiInfo` give the strings handed to `console.log`, one per call, with their embedded `\n`. The line break `console.log` adds after each string is not included.
- The top-level call order is not modelled: the report runs first, then the bundler starts. Only `PrintCiInfo` stands for the report.
- `addEventListener('fetch', …)`, `respondWith` and the asynchronous wrapper are not modelled. They are runtime registration and promises.
- `new URL(req.url).pathname` is not modelled, because it is URL parsing by a foreign library. A `Request` carries its pathname already parsed.
- The internals of the `Response` object are not modelled. This includes the `text/plain;charset=UTF-8` content type the runtime adds to the 404 response's string body. `Response.headers` lists only the headers the source sets.
- The page body is a Dafny `string` of Unicode characters rather than UTF-16 code units. Nothing in the handler counts its length.
- Only the heading, the doctype and the closing tag of the page's markup are stated as properties. The rest is carried as text and nothing is proved about it.
- Reporting the invoking user, host, working directory, runtime version or git metadata is not modelled: `ci-aware-build.js` has no such code.
