# heliumts-docs: the logic inside the documentation site

This project models, in Dafny, the three pieces of real logic in the Helium
documentation site and proves properties about them:

- **The speed test** (`src/pages/speed-test.tsx`). The page measures RPC
  and HTTP latency. `runTest` runs 100 back-to-back RPC trials, then 100
  HTTP trials. Each trial writes one cell of the detailed results table.
  Each phase's durations are reduced by `calculateFilteredAverage`, a
  symmetric 10% trimmed mean. The page then publishes both means and the
  ratio `httpAvg / rpcAvg`.
  - `trimmed_mean.dfy` (module `TrimmedMean`) holds the aggregator, modelled
    as pure functions.
  - `speed_test.dfy` (module `SpeedTest`) holds the page state. It is a
    class with the `isRunning`, `results` and `detailedResults` fields.
    `RunTrials` is the trial loop, with its invariants. `RunTest` runs the
    two phases, one after the other. `RecordDuration` is the single-cell
    update of one trial.
- **The sitemap handler** (`src/server/sitemap.ts`), in `sitemap.dfy`
  (module `Sitemap`). `getUrls` walks the menu tree recursively. The handler
  then adds the home page `"/"` when it is missing and removes duplicates.
  Finally it writes one `<url>` entry per link, in the XML format of the
  Sitemaps protocol 0.9.
- **The docs sidebar** (`src/pages/docs/_layout.tsx`), in `docs_layout.dfy`
  (module `DocsLayout`). The class `DocsSidebar` holds the set of expanded
  menu items and the mobile-menu flag. Its constructor is the state
  initialiser, `Navigate` is the path-change effect and `ToggleExpanded` is
  the toggle button. The `isActive` and `isActiveParent` highlight tests are
  predicates.

Two small helper modules come with these: `strings.dfy` has `StartsWith`,
which models JavaScript's `startsWith`, and `wrappers.dfy` has `Option`,
which models `null`.

Modelling choices:

- **Network and clock.** The two network calls and `performance.now()` are
  replaced by an oracle `measure: (Arm, nat) -> Outcome`. For trial `i` of
  an arm, the oracle gives either `Took(d)` with a non-negative duration
  `d`, or `Rejected`. A rejected call is not caught in the source. The
  promise returned by `runTest` rejects and the function stops at that
  `await`. So in the model, no later trial runs and `isRunning` stays true
  (which keeps the start button disabled).
- **Number of trials.** The specification functions of `SpeedTest` take the
  trial count `n` as a parameter. `RunTest` uses the source's constant, 100
  (`Iterations`).
- **Number representation.** Durations and means are `real`. The trim count
  `Math.floor(n * 0.1)` is the integer quotient `n / 10` for every sample
  count `n`. If `n` is not a multiple of 10, `n * 0.1` is at least 0.1 away
  from an integer, so rounding cannot change the floor. If `n = 10k`, the
  double nearest to 0.1 is slightly above 1/10, so the rounded product is
  `k` or just above it, never below.
- **Improvement ratio.** The ratio has no zero guard. `Ratio` therefore has
  the outcomes of double division: `Finite`, `PosInfinity`, `NegInfinity`
  and `NaN` (0/0).
- **Menu nodes.** A section (`title`, optional `href`, optional `items`) and
  an item (`href`, optional `subItems`) are one `MenuNode(href, items,
  subItems)`. An absent `href` is `""`: absent and empty are both falsy, so
  `getUrls` treats them the same. An absent list is `[]`: arrays are always
  truthy, and `getUrls` of an empty list returns nothing.

Further notes on the code as modelled:

- `httpAvg / rpcAvg` has no zero guard.
- The page compares exactly two arms.
- A rejected call leaves `isRunning` set. There is no separate failed state.

## Model

| member | source | states |
|---|---|---|
| `TrimmedMean.Sort` | src/pages/speed-test.tsx:7 | The copy is ascending, has the input's length and is a permutation of the input. |
| `TrimmedMean.TrimCount` | src/pages/speed-test.tsx:8 | The trim count is `floor(n / 10)` (`10k <= n < 10(k+1)`). It is 0 below ten samples. Twice the count never exceeds `n`, and at least one sample survives whenever `n >= 1`. |
| `TrimmedMean.Trimmed` | src/pages/speed-test.tsx:7-9 | The slice has `n - 2 * TrimCount(n)` samples, is ascending, and is a sub-multiset of the samples. |
| `TrimmedMean.TrimDropsExtremes` | src/pages/speed-test.tsx:7-9 | The samples split into the `TrimCount` smallest, the kept slice and the `TrimCount` largest. Every dropped low sample is at most every kept one, and every dropped high sample is at least every kept one. |
| `TrimmedMean.FilteredAverage` | src/pages/speed-test.tsx:5-15 | No samples gives 0. Otherwise the mean lies between the smallest and the largest sample. The second zero return (line 11) is never taken for a non-empty input: `Trimmed` has `n - 2 * TrimCount(n)` samples, and `TrimCount` keeps that at least 1 whenever `n >= 1`. |
| `TrimmedMean.FilteredAveragePermutation` | src/pages/speed-test.tsx:7-14 | Any reordering of the samples gives the same aggregate, because only a sorted copy is trimmed and summed. |
| `TrimmedMean.SortedUnique` | src/pages/speed-test.tsx:7 | Two ascending permutations of the same samples are equal, so the sorted copy depends only on the multiset of samples. |
| `TrimmedMean.SumPermutation` | src/pages/speed-test.tsx:13 | The `reduce` sum depends only on the multiset of values summed. |
| `TrimmedMean.PlainMeanBelowTen` | src/pages/speed-test.tsx:8-14 | With 1 to 9 samples nothing is trimmed, and the aggregate is the plain mean of the input. |
| `TrimmedMean.OneSample` | src/pages/speed-test.tsx:5-15 | A single sample is its own aggregate. |
| `TrimmedMean.TenSamples` | src/pages/speed-test.tsx:5-15 | For the samples 1..10, one sample is dropped from each end and the aggregate is 5.5. |
| `SpeedTest.InitialDetails` | src/pages/speed-test.tsx:43-47 | The initial table has `n` rows with ids 1..n, and both timings are null. |
| `SpeedTest.Trials` | src/pages/speed-test.tsx:62-68 | A phase records the durations of trials 0, 1, … in trial order. It stops before the first rejected trial, which records nothing, and records at most `n` durations. |
| `SpeedTest.WithColumn` | src/pages/speed-test.tsx:69-73 | After a phase, row `i` holds `ds[i]` in that phase's column for every recorded trial. Its id and its other column are untouched, and rows past the last recorded trial are unchanged. |
| `SpeedTest.SetCell` | src/pages/speed-test.tsx:71 | The spread `{ ...row, rpc: d }` / `{ ...row, http: d }` keeps the id and the other arm's cell, and sets the arm's cell to `d` (line 99 for HTTP). |
| `SpeedTest.RunDetails` | src/pages/speed-test.tsx:43-101 | The detailed table a run leaves has `n` rows with ids 1..n. If the RPC phase was cut short, the HTTP column stays null throughout. |
| `SpeedTest.RunResults` | src/pages/speed-test.tsx:50-114 | The summary a run leaves is one row labelled "Current Connection". It shows the RPC mean exactly when every RPC trial succeeded, and the improvement ratio exactly when every trial of both phases succeeded. |
| `SpeedTest.RunCalls` | src/pages/speed-test.tsx:62-102 | The calls a run issues are numbered below `n`, and there are at most `2n` of them. |
| `SpeedTest.Improvement` | src/pages/speed-test.tsx:105 | The ratio is finite exactly when the RPC mean is not 0, and then ratio × RPC mean = HTTP mean. A zero RPC mean gives +Infinity, -Infinity or NaN, according to the sign of the HTTP mean. |
| `SpeedTest.RunCallsOrdered` | src/pages/speed-test.tsx:59-102 | No RPC call follows an HTTP call. HTTP calls happen only after every RPC trial has succeeded, and the first `n` calls are then RPC trials 0..n-1 in order. A complete run makes `2n` calls. |
| `SpeedTest.CompletedTable` | src/pages/speed-test.tsx:62-102 | After a complete run, row `i` is `{ id: i+1, rpc: rpcDurations[i], http: httpDurations[i] }` for every `i`. |
| `SpeedTest.RejectedRpcLeavesHttpEmpty` | src/pages/speed-test.tsx:62-92 | If RPC trial `i` is rejected, the run does not complete, the HTTP column stays null, and the RPC cells from row `i` on stay null. |
| `SpeedTest.RpcPhaseRejected` | src/pages/speed-test.tsx:50-64 | A run that fails in the RPC phase leaves only RPC cells filled, keeps the "Testing…/Pending…" summary, and has made only RPC calls. |
| `SpeedTest.HttpPhaseRejected` | src/pages/speed-test.tsx:76-92 | A run that fails in the HTTP phase leaves the RPC mean published, with HTTP shown as "Testing…", and has made all RPC calls and then the HTTP calls up to the rejected one. |
| `SpeedTest.BothPhasesComplete` | src/pages/speed-test.tsx:104-116 | A complete run publishes both trimmed means and `Improvement(httpAvg, rpcAvg)`. |
| `SpeedTest.SpeedTestPage.constructor` | src/pages/speed-test.tsx:34-36 | The page starts idle, with empty summary and detail tables. |
| `SpeedTest.SpeedTestPage.RecordDuration` | src/pages/speed-test.tsx:69-73 | One trial's update changes only row `i`'s cell for its arm. The row's id, its other cell and every other row are unchanged. |
| `SpeedTest.SpeedTestPage.RunTrials` | src/pages/speed-test.tsx:62-74 | The loop pushes exactly `Trials(measure, arm, n)`. It reports a rejection exactly when fewer than `n` durations were recorded. It fills that column of the table and issues the calls in trial order. |
| `SpeedTest.SpeedTestPage.RunTest` | src/pages/speed-test.tsx:38-117 | Afterwards, `isRunning` is false exactly when no call was rejected. The detailed table, the summary and the ordered call log are those of `RunDetails`, `RunResults` and `RunCalls`. |
| `Sitemap.GetUrls` | src/server/sitemap.ts:7-28 | The loop-and-push traversal returns exactly `Urls(items)`. |
| `Sitemap.IsInternal` | src/server/sitemap.ts:12 | A link is listed when its href is truthy (non-empty) and does not start with "http". |
| `Sitemap.Urls` | src/server/sitemap.ts:7-28 | The value `getUrls` returns for a list of nodes. Every link in it is internal. |
| `Sitemap.NodeUrls` | src/server/sitemap.ts:10-25 | The links one node contributes: its own link, then those of its items, then those of its subItems. Every one is internal. |
| `Sitemap.InternalHrefs` | src/server/sitemap.ts:12-13 | A link is listed exactly when it is truthy, does not start with "http", and belongs to one of the nodes. There is at most one link per node. |
| `Sitemap.UrlsArePreorderLinks` | src/server/sitemap.ts:7-28 | `getUrls` returns the internal hrefs of the pre-order node list. The list has a node, then its `items`, then its `subItems`, with siblings in input order. Repeats are kept. |
| `Sitemap.NodeUrlsArePreorderLinks` | src/server/sitemap.ts:10-25 | For a single node: its own link comes first, then the links from its items, then those from its subItems. |
| `Sitemap.UrlsMembership` | src/server/sitemap.ts:11-24 | A link is in `getUrls`' result exactly when it is internal and carried by some node at any depth. |
| `Sitemap.UrlsAppend` | src/server/sitemap.ts:10-25 | Siblings keep their order: the links of `a + b` are the links of `a`, then those of `b`. |
| `Sitemap.RepeatedLinkKept` | src/server/sitemap.ts:7-28 | `getUrls` does not deduplicate. An item whose sub-item repeats its link yields the link twice. |
| `Sitemap.WithHome` | src/server/sitemap.ts:32-35 | Afterwards `"/"` is present. A list that had it is unchanged. Otherwise `"/"` is at index 0, followed by the old list. |
| `Sitemap.Unique` | src/server/sitemap.ts:37-38 | The result has no duplicates and the same elements as the input, in the order of their first occurrences in the input. |
| `Sitemap.UniqueOfDistinct` | src/server/sitemap.ts:38 | A list with no duplicates comes out unchanged. |
| `Sitemap.EntryFor` | src/server/sitemap.ts:44-50 | `<loc>` is `BASE_URL + url` and `<changefreq>` is weekly. `<priority>` is "1.0" exactly for `"/"` and "0.8" otherwise. |
| `Sitemap.EntriesFor` | src/server/sitemap.ts:42-43 | There is one entry per link, in list order. |
| `Sitemap.RenderEntry` | src/server/sitemap.ts:44-50 | The text of one entry, with the inner template's line breaks and indentation. |
| `Sitemap.Rendered` | src/server/sitemap.ts:42-51 | `map` gives the text of each entry, one per entry, in order. |
| `Sitemap.Join` | src/server/sitemap.ts:52 | `join("")` writes the parts one after another, with no separator. |
| `Sitemap.Document` | src/server/sitemap.ts:40-53 | The whole document starts with the XML declaration and the `urlset` header, and ends with `</urlset>`. |
| `Sitemap.RenderedAppend` | src/server/sitemap.ts:42-51 | `map` renders each entry on its own: the entries of `a + b` render as those of `a`, followed by those of `b`. |
| `Sitemap.JoinAppend` | src/server/sitemap.ts:52 | `join("")` writes the parts one after another: joining `a + b` gives the join of `a` followed by the join of `b`. |
| `Sitemap.SitemapLocs` | src/server/sitemap.ts:31-48 | The sitemap lists the location `BASE_URL + url` exactly when `url` is `"/"` or an internal menu link. |
| `Sitemap.SitemapLocsDistinct` | src/server/sitemap.ts:37-46 | No two entries share a location. |
| `Sitemap.SitemapOneTopPriority` | src/server/sitemap.ts:32-48 | Some entry has priority 1.0, and no two entries both have it. |
| `Sitemap.SitemapHomeFirst` | src/server/sitemap.ts:33-38 | If the menu does not link to `"/"`, the first entry is the home page's. |
| `Sitemap.SitemapEntries` | src/server/sitemap.ts:31-51 | The entries the handler writes: one per link of the deduplicated list that has `"/"` added when missing. |
| `Sitemap.SitemapCoversMenu` | src/server/sitemap.ts:30-53 | The sitemap has an entry for a location exactly when it is the home page or an internal menu link. Locations are never repeated, and exactly one entry has priority 1.0. If the menu lacks `"/"`, the home entry comes first. |
| `Sitemap.SitemapXml` | src/server/sitemap.ts:30-53 | The handler's body produces the document for `SitemapEntries(menu)`: the XML declaration and Sitemaps 0.9 `urlset` header, the entries, then `</urlset>`. |
| `DocsLayout.AutoExpanded` | src/pages/docs/_layout.tsx:137-147 | The routing parent is in the set exactly when the path starts with `"/docs/core-concepts/routing"`. The same holds for the HTTP handlers parent. Nothing else is in the set. |
| `DocsLayout.Toggled` | src/pages/docs/_layout.tsx:160-170 | Toggling flips the membership of `href` and keeps every other member as it was. |
| `DocsLayout.IsActive` | src/pages/docs/_layout.tsx:172 | A link is active when the current path equals it. |
| `DocsLayout.IsActiveParent` | src/pages/docs/_layout.tsx:173 | A link is an active parent when the path starts with the link followed by "/", or equals the link. |
| `DocsLayout.ShowsSubItems` | src/pages/docs/_layout.tsx:176-207 | An item's sub-list is rendered when it has sub-items and is in the expanded set (the condition at line 207). |
| `DocsLayout.ToggleInvolutive` | src/pages/docs/_layout.tsx:160-170 | Toggling the same href twice restores the original set. |
| `DocsLayout.ActiveIsActiveParent` | src/pages/docs/_layout.tsx:172-173 | An active link is also an active parent. |
| `DocsLayout.ActiveParentBoundary` | src/pages/docs/_layout.tsx:173 | A link is an active parent exactly when the path equals it, or the path continues it with a "/". |
| `DocsLayout.SharedPrefixIsNotParent` | src/pages/docs/_layout.tsx:173 | "/a/bc" is not an active parent of "/a/b", but "/a/b/c" is. |
| `DocsLayout.ExpansionIgnoresBoundary` | src/pages/docs/_layout.tsx:140-141 | The bare `startsWith` expands Routing for "/docs/core-concepts/routing-x", a path whose Routing link the boundary-checked highlight of line 173 does not mark. |
| `DocsLayout.ActiveParentIsExpanded` | src/pages/docs/_layout.tsx:140-144 | Every path below one of the two parents, at a "/" boundary, auto-expands that parent. |
| `DocsLayout.ToggleShowsOrHides` | src/pages/docs/_layout.tsx:176-177 | An item with sub-items shows its sub-list exactly when it is expanded, so toggling it flips whether the list is shown. |
| `DocsLayout.DocsSidebar.constructor` | src/pages/docs/_layout.tsx:136-147 | The mobile menu starts closed, and the expanded set is `AutoExpanded(path)`. |
| `DocsLayout.DocsSidebar.Navigate` | src/pages/docs/_layout.tsx:149-158 | The effect closes the mobile menu and adds the parents the new path calls for. It never removes an item, so the new set is a superset of the old. |
| `DocsLayout.DocsSidebar.ToggleExpanded` | src/pages/docs/_layout.tsx:160-170 | The set is replaced by `Toggled(old, href)`, so exactly the membership of `href` flips. |
| `DocsLayout.DocsSidebar.ToggleMobileMenu` | src/pages/docs/_layout.tsx:232 | The menu button flips `isMobileMenuOpen`. |
| `DocsLayout.NavigateIdempotent` | src/pages/docs/_layout.tsx:149-158 | Running the effect again on the same path leaves the expanded set unchanged. |
| `DocsLayout.FirstEffectIsNoOp` | src/pages/docs/_layout.tsx:137-158 | The effect's run on mount, right after the initialiser, adds nothing. |

## Left out

- The network calls (`fetch` to `/api/get-tasks`, the `getTasks` RPC through `useCall`) and `performance.now()` are replaced by the oracle `measure`. What the calls return is discarded by the source and is not modelled.
- IEEE double arithmetic is modelled by `real`: the rounding of sums and quotients is not captured. `toFixed(0)`, `toFixed(1)`, `toFixed(2)` and the `"x"` suffix are not modelled. The summary holds the numbers themselves.
- React's machinery is not modelled: `useState` setters, batching, re-render scheduling and when `useEffect` runs. State changes are direct field updates, applied in program order. This gives the same final state, because React applies the queued updates of each state variable in the order they were issued. A plain value replaces the state. A functional updater (the per-trial cell writes) is applied to the result of the updates queued before it.
- All JSX is left out: class names, icons, titles, the rendering of the tables and the menu, and the `disabled={isRunning}` attribute. Only the conditions the markup tests are modelled: `ShowsSubItems` and the highlight predicates.
- The menu data in `src/config/docs.ts` and the copy of it in `src/pages/docs/_layout.tsx` are static. The model works on any menu tree rather than these constants.
- `Sitemap.SitemapXml`: the source does not entity-escape links (`&`, `<`) as the Sitemaps protocol requires. The model writes them unescaped, as the source does.
- The HTTP framing of the sitemap (`defineHTTPRequest`, the `Response` object and its `Content-Type` header) is not modelled.
- `src/server/tasks.ts`, the benchmark's server-side fixture, is not part of this model. Its data comes from `Math.random()` and `new Date()`, and its handlers only add delays.
- The static pages under `src/pages/`, `src/components/CodeBlock.tsx`, `src/App.tsx` and `helium.config.ts` are not part of this model.
