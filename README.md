# Aivora Desk job store, modelled in Dafny

Aivora Desk lets a web page hand a spreadsheet to a worker on someone's
laptop. The worker cannot be reached from the server. The server therefore
keeps one process-wide store, `global.jobStore`, and the page and the worker
talk to each other only through it. The store holds three things:

- `lastJobId`, the id counter;
- `jobs`, the job table, keyed by integer id;
- `fileStorage`, the uploaded files (data URLs), keyed by file id.

This project models that store and the operations that act on it:

- job creation (`POST /api/job/create`);
- log appends with progress parsing (`POST /api/job/log`);
- the worker's search for a pending job (`GET /api/job/pending`);
- the in-page status update, the in-page log stream, the progress percentage
  and the status label (`app/page.tsx`).

Each handler runs to completion on one event loop, so each operation is
modelled as one atomic step.

Modules follow the source files:

- `Wrappers`: `Option`, where `None` stands for `null`/`undefined`.
- `Numbers`: decimal numerals. This covers the number-to-string conversion in
  template literals and `parseInt` on digit runs.
- `Jobs`: the `Status`, `LogEntry` and `Job` records, the invariant `Keyed`,
  and the class `JobStore`, whose fields are the store's three fields.
- `ProgressParse`: the pattern `/Progress: (\d+)\/(\d+)/` as a pure parser.
- `CreateRoute`, `LogRoute`, `PendingRoute`: one module per route.
- `Page`: the store-facing helpers of `app/page.tsx`.
- `StatusRoute`: the one line of the status route that the Findings table
  below is about.
- `Protocol`: lemmas about how the operations interact on the table.

The handlers that change the store are methods. Each takes the `JobStore`,
declares `modifies store`, and gives the full new state:

- the counter;
- the table: creation adds one entry under the new id; every other handler
  replaces one existing entry by a function of the old entry;
- the file table.

They keep the invariant `Keyed`: every key of `jobs` lies in
`1..lastJobId` and names its own record. The invariant is why a new id is
always fresh and ids strictly increase.

The pending search is a pure function on the table. It returns the PENDING
job with the smallest id. This is because `Object.values` visits integer
keys in ascending order and `find` stops at the first match. The in-page
`simulateFetchPendingJob` (app/page.tsx:66-72) evaluates the same
expression, so `PendingRoute.Get` models it too. As a function, the poll
cannot change the store. Two polls with no operation between them therefore
return the same job: a poll is a peek, not a claim.

Behaviours of the code worth stating:

- Creation does not validate its input.
- A new job's summary is `Awaiting worker execution.`.
- The output file is kept in the job record (`updatedFileBase64`); the file
  table holds only uploads.
- Status updates check no transitions. A finished job can go back to
  PENDING.
- The in-page status update and log stream report success even for an
  unknown id. Of the modelled operations, only the log route answers 404.

## Model

| member | source | states |
|---|---|---|
| `Jobs.JobStore.constructor` | app/page.tsx:18-27 | the store starts with counter 0 and empty job and file tables, and satisfies the id invariant |
| `CreateRoute.Post` | app/api/job/create/route.ts:18-46 | the counter grows by exactly one and is the new id; that id was not a key before; the invariant is kept; the file table maps `fileId` to the content, overwriting any earlier entry, and nothing else in it changes; the table gains exactly this record and no other record changes; the record is PENDING with summary `Awaiting worker execution.`, no output file, both counters 0, and file id, name and delay copied from the request; the log is one `info` entry with the creation message; the returned record is the stored one |
| `CreateRoute.SubmitTwice` | app/api/job/create/route.ts:24 | two successive submissions, even of the same file, get consecutive ids, both fresh, with distinct creation messages |
| `CreateRoute.CreatedMessageNamesJob` | app/api/job/create/route.ts:36 | the creation message determines the job id: different ids give different messages |
| `Numbers.Decimal` | app/api/job/create/route.ts:36 | the numeral of an id is non-empty, all digits, and starts with `0` only for zero |
| `Numbers.DigitsValue` | app/api/job/log/route.ts:29-30 | `parseInt` of a digit string is 0 exactly when every digit is `0`; `CanonicalRoundTrip` pins its value on a string with no leading zero and `LeadingZero` reduces any other string to that case |
| `Numbers.LeadingZero` | app/api/job/log/route.ts:29-30 | `parseInt` skips leading zeros: a `0` in front of a digit string does not change the value, so `007` reads as 7 |
| `Numbers.CanonicalRoundTrip` | app/api/job/log/route.ts:29-30 | a digit string with no leading zero is the numeral of the value `parseInt` reads from it |
| `Numbers.DecimalRoundTrip` | app/api/job/log/route.ts:29-30 | `parseInt` of the numeral of `n` gives back `n` |
| `Numbers.DecimalInjective` | app/api/job/create/route.ts:36 | distinct naturals have distinct numerals |
| `Numbers.DigitRun` | app/api/job/log/route.ts:27 | a `\d+` run taken greedily: all of it is digits, and it stops at the end of the text or at a non-digit |
| `Numbers.RunOf` | app/api/job/log/route.ts:27 | a digit string that ends the text or is followed by a non-digit is exactly the greedy run |
| `ProgressParse.MatchAt` | app/api/job/log/route.ts:27 | an anchored match of the pattern captures two non-empty digit strings |
| `ProgressParse.MatchSound` | app/api/job/log/route.ts:27 | a match at a position is read off the text: `Progress: `, the first group, `/` and the second group sit there, and no digit follows the second group |
| `ProgressParse.GroupsBuilt` | app/api/job/log/route.ts:27 | after any text, two digit strings around a slash that are not followed by a digit are exactly the two captured groups, because both groups are greedy |
| `ProgressParse.MatchBuilt` | app/api/job/log/route.ts:27 | the text `Progress: <c>/<t>` followed by a non-digit or the end matches at position 0 and captures the two numerals |
| `ProgressParse.Counts` | app/api/job/log/route.ts:29-30 | the two `parseInt` calls: a captured group with no leading zero is the numeral of the number read from it; a group that starts with `0` reads as the same group without that `0` |
| `ProgressParse.LeftmostFrom` | app/api/job/log/route.ts:27 | the unanchored search returns the first position where the pattern matches, with no match at any earlier position, or nothing when no position matches |
| `ProgressParse.ParseProgress` | app/api/job/log/route.ts:27-28 | the parse fails exactly when the pattern matches nowhere; otherwise it yields the two numbers captured at the leftmost matching position |
| `ProgressParse.ParseRoundTrip` | app/api/job/log/route.ts:27 | `Progress: <c>/<t>` followed by anything that does not continue the second number parses to `(c, t)`, for all naturals `c` and `t` |
| `ProgressParse.FirstMatch` | app/api/job/log/route.ts:27-30 | a message with a match at a position and none before it parses to the numbers captured there |
| `ProgressParse.NoMatchIn` | app/api/job/log/route.ts:27 | no match starts inside text that holds no `P` |
| `ProgressParse.ParseAfterText` | app/api/job/log/route.ts:27-30 | the pattern is unanchored: after any text without a `P`, `Progress: <c>/<t>` followed by a non-digit or the end still parses to `(c, t)` |
| `ProgressParse.ParseExact` | app/api/job/log/route.ts:27 | the exact message `Progress: <c>/<t>` parses to `(c, t)` |
| `ProgressParse.ParseWellFormed` | app/api/job/log/route.ts:27-30 | `Progress: 7/20` gives `(7, 20)` |
| `ProgressParse.ParseMalformed` | app/api/job/log/route.ts:27-28 | `Progress: oops` matches at no position, so the counters are not touched |
| `LogRoute.WithEntry` | app/api/job/log/route.ts:23-31 | the log grows by exactly one, the old log is a prefix of the new one, and the new last entry is the one sent, verbatim; a progress entry that matches overwrites both counters with the parsed numbers, with no check against the earlier values; any other entry, or a progress entry that does not match, leaves the counters alone; id, status, summary, output file, file id, name and delay are unchanged |
| `LogRoute.KeyedReplace` | app/api/job/log/route.ts:23-31 | replacing a record by one with the same id keeps the id invariant |
| `LogRoute.Push` | app/api/job/log/route.ts:22-32 | for a known job, only that job's record changes, to `WithEntry` of the old record; the counter and the file table are unchanged; the invariant is kept |
| `LogRoute.Post` | app/api/job/log/route.ts:17-39 | 200 exactly when the id is a key, and then the `Push` change; for an unknown id 404, and the table, file table and counter are all unchanged |
| `PendingRoute.ObjectValues` | app/api/job/pending/route.ts:25 | `Object.values` of the table: every record appears, each is the record stored under its id, and ids ascend strictly |
| `PendingRoute.FindPending` | app/api/job/pending/route.ts:25-27 | `find` returns nothing exactly when no record is PENDING; otherwise it returns a PENDING record with no PENDING record before it |
| `PendingRoute.FirstPendingSmallest` | app/api/job/pending/route.ts:25 | over records in ascending id order, `find` returns a PENDING record of the sequence, and every record with a smaller id is not PENDING |
| `PendingRoute.SearchFound` | app/api/job/pending/route.ts:25-27 | a record found by the search over the ascending values is stored under its id, is PENDING, and no PENDING job in the table has a smaller id |
| `PendingRoute.SearchMisses` | app/api/job/pending/route.ts:25-34 | the search over the ascending values finds nothing exactly when no job in the table is PENDING |
| `PendingRoute.Get` | app/api/job/pending/route.ts:19-36 | the result is null exactly when no job is PENDING; any job returned is stored under its id and is PENDING, so RUNNING, COMPLETED and FAILED jobs are never returned; no PENDING job has a smaller id |
| `Protocol.GetIs` | app/api/job/pending/route.ts:25-27 | the PENDING job with no PENDING job below it is exactly what the poll returns |
| `Protocol.InsertNext` | app/api/job/create/route.ts:24-43 | storing the next id keeps the invariant with the new counter, and leaves every earlier record in place |
| `Protocol.PollAfterCreate` | app/api/job/pending/route.ts:25-27 | after a creation the poll returns the job that was already pending, or the new job if none was |
| `Protocol.PollIgnoresLog` | app/api/job/log/route.ts:23-31 | appending a log line keeps the invariant and does not change which job the poll returns |
| `Protocol.PollAfterClaim` | app/page.tsx:81 | once the polled job is set to RUNNING, the next poll returns a job with a larger id, or none |
| `Page.Truthy` | app/page.tsx:81-83 | an optional string is falsy exactly when it is `null`/`undefined` or empty |
| `Page.Updated` | app/page.tsx:79-84 | status, summary and output file are each replaced only by a truthy value, i.e. present and, for strings, non-empty; otherwise the old value stays; any status can replace any other, with no transition check; log, counters, id, file id, name and delay are unchanged |
| `Page.UpdateJobStatus` | app/page.tsx:75-88 | always resolves success; for a known id only that record changes, to `Updated` of it; an unknown id changes nothing; the counter and the file table are unchanged |
| `Page.StreamLog` | app/page.tsx:91-111 | always resolves success; for a known id the same change as the log route (`LogRoute.WithEntry`); an unknown id is silently ignored |
| `Page.ProgressPercentage` | app/page.tsx:262-265 | 0 without a current job or when `totalPosts` is 0; otherwise the nearest whole percentage of completed over total, with halves rounded up |
| `Page.ProgressWithinBar` | app/page.tsx:263-264 | when completed does not exceed total, the percentage is at most 100, and it is exactly 100 when all posts are done |
| `Page.ToLower` | app/page.tsx:303 | lower-casing keeps the length and lower-cases each character |
| `Page.StatusText` | app/page.tsx:303 | the label has the length of the status name, keeps its first character and lower-cases the rest |
| `Page.StatusTextExamples` | app/page.tsx:303 | `PENDING` becomes `Pending`, and likewise for `Running`, `Completed` and `Failed` |
| `StatusRoute.CorrectedKeepsOutput` | app/page.tsx:83 | under the corrected rule, an update that brings no output file never loses the stored one |

## Findings

| source | as written | input that shows it | evidently intended | confidence | as-written member | corrected member |
|---|---|---|---|---|---|---|
| app/api/job/status/[jobid]/route.ts:37 | the new output is the supplied value or-ed with itself, so the stored value is never the fallback | a COMPLETED job holding output `UEsDBBQ` gets a second update with only a summary; the output becomes `undefined` | fall back to the stored output, as the two lines above it and app/page.tsx:83 do | high; not executed | `StatusRoute.FileFieldAsWritten` (shown by `StatusRoute.SummaryOnlyUpdateErasesOutput`) | `Page.Updated` (proved by `StatusRoute.CorrectedKeepsOutput`) |

## Left out

- Transport: `req.json()`, `NextResponse`, HTTP status codes and the generic 500 catch in the create route are left out. Results are return values: the created record, `Success`/`JobNotFound`, or `success`.
- `simulateCreateJob` and `simulateFetchJob` (app/page.tsx:37-62, 114-123) are left out: they only call the create route and the fetch route through `fetch`. The `FileReader` read and the `file-${Date.now()}` file id are left out too.
- The fetch route `app/api/job/[jobid]/route.ts` and the file route `app/api/job/file/[fileid]/route.ts` are not part of this model. Neither is the status route, except its line 37, which the Findings table is about.
- `app/lib/jobStore.ts` is not part of this model. It is a store shape with no counter, and no modelled file imports it.
- Clocks: timestamps are opaque strings passed in as parameters. The `setTimeout` delays of the in-page helpers are left out, so each helper's effect is modelled as happening at once.
- Lazy initialisation: the `typeof global.jobStore === 'undefined'` guards become the `JobStore` constructor.
- Concurrency: each handler is modelled as atomic, which matches one event loop. Races between workers are left out; the code has no claim primitive.
- Aliasing: job records are values in the table. The HTTP routes serialise their response at once, so no shared reference to a stored record leaves them.
- `simulateFetchPendingJob` (app/page.tsx:66-72) runs `find` at call time but resolves with the live stored object only after a 1000 ms timer. `PendingRoute.Get` returns the record as it was at the `find`; changes made to that object during the delay (for instance a status set to RUNNING by `simulateUpdateJobStatus`) are not modelled, so the model does not capture the in-page poll handing back a job that is no longer PENDING.
- File ids are modelled as ordinary keys of the file table. The key `__proto__` is not modelled: `fileStorage` is a plain object, so assigning to that key calls the prototype setter, which ignores a string and stores nothing. The page's own file ids have the form `file-<timestamp>`.
- Job ids are integers. `parseInt` of a non-numeric id gives `NaN`, which is never a key, so it behaves like any unknown id. Precision loss above 2^53 is not modelled.
- `parseInt` of a digit run is modelled as its exact value.
- A log `message` that is not a string (where `match` would throw) is not modelled. Nor is a JSON `delay` that is not an integer: `delay` is an `int`.
- Status updates: a supplied status is one of the four names. A falsy status (`null`, `undefined` or `""`) is modelled as `None`.
- Page.ProgressPercentage: computes `Math.round` of the exact ratio `100 * completed / total`, not of the double-precision `completed / total * 100`. The two can differ when the double product lands just beside a half.
- Page.ToLower: lower-cases ASCII letters only, where `toLowerCase` is full Unicode. The four status names are ASCII.
- The React UI is left out: rendering, login, drag and drop, polling intervals, auto-scroll and `handleDownload` (base64 decoding, `Blob`, the DOM).
