# scrape-github-dependents, modelled in Dafny

The script scrapes GitHub's "dependents" listing of a target repository,
page by page, collecting at most `MAX_DEPENDENTS = 500` dependent
identifiers (`owner/repo`). For each dependent it asks the REST API for the
first listed contributor, that contributor's profile and the author email
of their first listed commit in the dependent, and assembles one
contributor record. The records that resolved are written to
`contributors.csv` with the columns
`username,fullName,email,company,contributions,repository`, but only when
there is at least one.

The network is an input of the model:

- the listing pages are a finite list of responses (`Http.Fetch`), entry
  `i` answering the request for page `i + 1`; a successful page is given
  as the `href` attributes of its repository hovercard anchors, in
  document order;
- the REST API is a value `Resolver.Api` of three total functions from a
  request (owner, repository, login) to its response, so the same request
  always gets the same response (see "## Left out").

Modules, one per part of `index.js`:

- `Http` (`http.dfy`): a request outcome as the script sees it through
  axios: a response with a status and a body, or a thrown error with or
  without a response status.
- `Collector` (`collector.dfy`): `parseDependentsFromHTML` as a method with
  a loop, `getDependents` as a method with the source's `while` loop, its
  `dependents` accumulator and its `page` cursor, and `Collect`, the same
  loop as a recursive function, with the lemmas about it.
- `Resolver` (`resolver.dfy`): `getUserDetails`, `getEmailFromCommits` and
  `getFirstContributorDetails` as functions of the API's responses.
- `Driver` (`driver.dfy`): `fullRepoName.split('/')`, the `for` loop that
  keeps the non-null records, and the export decision.

Behaviour that the model follows from the code:

- On a 429 the script logs "Waiting for 1 minute before retrying...", but
  the `page++` at the end of the loop body still runs, so the next request
  is for the following page and the rate-limited page is never fetched
  again. `Collector.GetDependents` reports the page numbers it requests,
  and they are always 1, 2, 3, ... whatever the outcomes.
- A failed profile lookup does not merely leave `fullName` and `company`
  null: `getUserDetails` returns `null`, reading `userDetails.name` throws
  inside the `try`, and the `catch` returns `null` for the whole record.
  A failed email lookup only leaves `email` null.
- A dependent identifier without a `/` makes `repo` `undefined`, which
  the template literals turn into the text "undefined".

## Model

| member | source | states |
|---|---|---|
| `Collector.DropFirst` | index.js:62 | `substring(1)`: an empty href gives the empty identifier, otherwise the href is its first character followed by the identifier |
| `Collector.ParseDependentsFromHtml` | index.js:57-67 | returns min(number of hrefs, 500) identifiers, the `i`-th being the `i`-th href without its first character, in document order |
| `Collector.GetDependents` | index.js:13-55 | the loop returns the dependents `Collect` specifies, never more than 500, and requests pages 1, 2, 3, ... in order, one per response consumed |
| `Collector.CollectStep` | index.js:27-52 | one request: an outcome that stops the loop, or a page that reaches the cap, ends the run with the accumulator plus the page's identifiers cut at 500; otherwise the run goes on with the page's identifiers appended |
| `Collector.CollectIsCappedConcat` | index.js:29-38 | the result is exactly the identifiers of the pages requested, appended in request order and truncated to 500; no more pages are consumed than given |
| `Collector.CollectBounded` | index.js:17-37 | at most `MAX_DEPENDENTS` identifiers are returned |
| `Collector.CollectIsPrefixOfPages` | index.js:29-38 | the accumulator is never cut back, and the result is a prefix of the accumulator followed by the identifiers of every successful page |
| `Collector.CollectContinuesBefore` | index.js:31-52 | every page before the last one requested was a 429 or a non-empty 200 page, and the total stayed under the cap after it |
| `Collector.CollectEndsOn` | index.js:27-50 | unless every response given was consumed, the last page requested was an empty 200 page, a non-200 response, an error other than 429, or the page that reached the cap |
| `Collector.RateLimitSkipsPage` | index.js:43-52 | a 429 adds nothing and does not end the loop: the run is the run of the later responses with one more page requested; that the page is skipped rather than retried comes from `Collector.GetDependents`, whose requested page numbers are 1, 2, 3, ... one per response consumed |
| `Collector.StoppingPageKeepsAccumulator` | index.js:29-50 | an empty 200 page, a non-200 response or a non-429 error returns the accumulator unchanged and requests nothing after it |
| `Resolver.UserDetails` | index.js:103-125 | the profile exactly when the response is a 200, otherwise null |
| `Resolver.EmailFromCommits` | index.js:127-149 | the first listed commit's author email exactly when the response is a 200 with a non-empty list, otherwise null |
| `Resolver.FirstContributorDetails` | index.js:69-101 | a record exists exactly when the contributor list is a non-empty 200 and the first contributor's profile is a 200; its username and contributions are the first contributor's, its repository `owner/repo`, its name and company the profile's, its email the commit lookup's |
| `Resolver.NoContributorsNoRecord` | index.js:81-96 | a non-200 or empty contributor list gives no record |
| `Resolver.MissingProfileDropsRecord` | index.js:83-99 | a failed profile lookup gives no record, whatever the other lookups gave |
| `Resolver.MissingEmailKeepsRecord` | index.js:84-92 | a failed email lookup still gives a record, with a null email and every other field the one its lookup gave |
| `Driver.Split` | index.js:156 | `split('/')`: at least one part, no part holds a `/`, and joining the parts with `/` gives the identifier back |
| `Driver.OwnerRepo` | index.js:156 | the owner is the first part of `split('/')` and holds no `/`; with at least two parts the repository is the second part and any further parts are dropped; an identifier without a `/` gives the owner = the whole identifier and the repository "undefined" |
| `Driver.OwnerRepoRoundTrip` | index.js:156 | an identifier `owner/repo` with a single slash destructures into that owner and repository |
| `Driver.ResolvedRecordNamesDependent` | index.js:155-157 | the record resolved for a dependent `owner/repo` has that identifier as its `repository` |
| `Driver.DetailsMembers` | index.js:155-161 | a record is kept exactly when some dependent resolved to it |
| `Driver.DetailsAppend` | index.js:155-161 | records keep the order of their dependents: those of earlier dependents come first |
| `Driver.KeptMembers` | index.js:158-160 | a value is pushed exactly when it is one of the non-null results |
| `Driver.KeptAppend` | index.js:155-161 | the non-null results of a concatenation are those of the first part followed by those of the second |
| `Driver.KeptBounded` | index.js:155-161 | never more records than dependents |
| `Driver.Row` | index.js:166-168 | a row has one cell per column, and each cell is the record's property named by that column's header |
| `Driver.ExportDecision` | index.js:165-173 | some record is kept exactly when some dependent resolved |
| `Driver.ScrapeContributors` | index.js:151-174 | the records are those of the collected dependents that resolved, in order, at most 500; the CSV is written, with the six columns in order and one row per record, exactly when some dependent resolved |

## Left out

- HTTP itself: URLs, authentication, `Accept` headers and axios; each
  response is an input value.
- Strings are sequences of Unicode characters, not UTF-16 code units:
  `substring(1)` on an href whose first character lies outside the Basic
  Multilingual Plane leaves half a surrogate pair in JavaScript, which
  `Collector.DropFirst` does not reproduce (it drops the whole character).
- HTML parsing with cheerio and the CSS selector: a page is the list of
  `href`s of the selected anchors. An anchor without an `href` (which
  would throw inside the `try` and end the loop) is not modelled.
- A list of page responses that runs out while the loop would go on ends
  the run there; `getDependents` itself would keep requesting pages,
  forever if every answer were a 429.
- Different answers to repeated identical REST requests: `Resolver.Api`
  answers each request (a contributor list, a profile, a commit list) by a
  fixed function of its parameters. Two dependents with the same first
  contributor therefore get the same profile response, so a rate limit or
  failure that hits only the later of two identical requests (one record
  kept, the other dropped) is not modelled; neither is a duplicated
  dependent whose two contributor lookups answer differently.
- The one-minute `setTimeout` wait, async sequencing, console logging and
  dotenv configuration: timing, output and ambient state.
- json2csv's quoting and formatting and `fs.writeFileSync`: only the
  decision to write, the header and the cell of each column are modelled.
- The commit request made even after the profile lookup failed: the model
  gives the record's value, not the list of requests the resolver sends.
- Malformed API bodies (a contributor without `login`, a commit without
  `commit.author`): the bodies are assumed to have the fields the script
  reads.
