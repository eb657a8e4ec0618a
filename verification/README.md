# kdelta: a verified model of scan, resolve, versions, changes and impact

kdelta scans a cluster, finds out where its Helm charts come from, lists the versions each
component is behind, collects the change notes of a version range, and has an agent assess the
impact of an upgrade. This project models the deterministic part of that pipeline, between the
network and the agent, and proves what its stages promise, alone and together.

| file | models | main results |
|---|---|---|
| Store.dfy | internal/store: the cache database and its transactions | one live scan with exactly its rows; ids never reused; a failed save changes nothing; the string index finds what a search of the scan finds |
| Impact.dfy, Calls.dfy | internal/server/impact.go | safety of any interleaving of AssessImpact calls and scans; what is sent is current exactly if no scan came in between; a repeated request is served from the store |
| Helm.dfy, Evidence.dfy, Listing.dfy | internal/resolve/helm.go | who wins a resolution and on what evidence; what one more package in the listing can change |
| Resolution.dfy, Upstreams.dfy, Enrichment.dfy | internal/resolve/resolve.go, internal/server/resolve.go | budget, spacing, coverage and starvation over successive scans; in-place enrichment |
| Semver.dfy, Vers.dfy, Precedence.dfy, Orders.dfy | internal/vers | which strings denote which version; comparison is section 11 of Semantic Versioning; the stable ascending order is unique |
| Versions.dfy, VersionLists.dfy, Changes.dfy, Changelog.dfy | internal/server/versions.go, changes.go | listings are suffixes, ranges compose, the two RPCs agree |
| Scan.dfy, Server.dfy, Decimal.dfy | internal/server/scan.go | scan, paging, lookups |
| Detect.dfy | internal/detect/detect.go | what the matched-count check means |
| Redaction.dfy, Cluster.dfy | internal/agent/cluster.go | in-place redaction: exactly the env values go |
| Ref.dfy | internal/ref | which refs their string form determines |
| Api.dfy, Upstream.dfy, Wrappers.dfy | protobuf messages, internal/upstream as its callers see it | |

How the code is represented:

- An object whose methods change it is a class: the store handle (`Store.Store`), a detected
  resource, a decoded map (`Redaction.Node`), an AssessImpact call in progress. The database
  inside the store is one value, so a transaction works on a copy that is assigned back or dropped.
- A method's contract ties its result and the new state to a specification function; the
  lemmas are about those functions. Runs are folds of steps over arbitrary sequences of events.
- Whatever the outside decides is a parameter and nothing is assumed about it: clock readings,
  whether the driver serves a statement (`served`, or `fault`, the number of the failing
  statement of a transaction), whether a context is cancelled, what URL parsing, the egress
  guard and the network answer (`Upstream.Client`), and what the agent returns. The one premise
  is that the egress guard rejects the empty URL.
- A method is tied to a specification function that follows the code, and lemmas named `...Means` say what that
  function is without it: in terms of the request, the messages and literal constants.
- Times are nanoseconds as unbounded integers; the tables hold whole seconds, rounded down.

Some promises turned out to hold only under a condition. Each condition is stated and shown to be needed:

- "versions_behind > 0 exactly when latest is above current" fails exactly when every listed version
  is a pre-release and the last one is above current (`Versions.BehindVersusLatest`,
  `Versions.OnlyPrereleases`).
- Parsing inverts a ref's string form exactly for well-formed refs (`Ref.ParseInvertsString`,
  `Ref.AmbiguousString`); every ref the API accepts is one.
- The default changelog is empty exactly when nothing is behind, but the answer is "no releases
  found" only if some version is listed; with none the range itself cannot be determined
  (`Changes.DefaultChangesAgree`, `Changes.NothingListed`).
- The matched-count check of a detector filter is right for every filter exactly when detector
  names are distinct (`Detect.CheckNeedsDistinctNames`).
- A scan attempts a package exactly if its lookup misses after fewer than 20 others
  (`Resolution.RunRecords`). So successive scans reach every package if nothing they recorded expires
  (`Resolution.Coverage`), and if the failures of 20 packages ahead expire between scans, never the
  packages behind them (`Resolution.DailyFailuresStarve`, `Resolution.SomeChartStarves`).
- One more candidate wins only with strictly more trust among the candidates examined
  (`Helm.AddingACandidate`). In the listing the resolution starts from, equal trust is enough when the
  winner is pushed off a full shortlist (`Listing.AddingAPackage`, `Listing.RivalTakesOver`), and a third
  package can win only if the new one takes the winner's own place (`Listing.PlaceTakerHandsOver`).
- An assessment is computed from the live inventory, and served, when its store statement runs. It is
  still so when it is sent exactly if no scan committed in between (`Impact.SendsAreCurrent`,
  `Impact.StaleSend`, `Impact.StaleSendHappens`).

`scans.id` is AUTOINCREMENT in internal/store/schema.sql, so an id is never reused whatever
SaveScan deletes; `Store.OneLiveScan` shows that in every reachable state the high-water mark is
also the largest id, so allocating max + 1 would hand out the same ids.

`dafny verify dfyconfig.toml` checks the whole project.

## Model

| member | source | states |
|---|---|---|
| Store.InsertRows | internal/store/store.go:156-166 | the inserts succeed exactly if no two resources share a ref string and no statement fails, and add exactly the scan's rows |
| Store.Store.SaveScan | internal/store/store.go:135-175 | a scan with distinct ref strings supersedes everything under a fresh id; a save that fails at any statement leaves the database as it was |
| Store.Store.LatestScan | internal/store/store.go:177-195 | the scan with the largest id, or not found |
| Store.Store.Resource | internal/store/store.go:198-216 | the row of the newest scan that has the ref's string form, missing told apart from a failing driver |
| Store.Store.PutImpact | internal/store/store.go:351-364 | written only under an existing scan, replacing only the same key |
| Store.Store.Impact | internal/store/store.go:367-388 | the assessment of the newest scan that has one for the key |
| Store.Store.VersionList | internal/store/store.go:239-263 | the list for package and kind unless older than the limit |
| Store.Store.Resolution | internal/store/store.go:282-304 | the outcome unless expired, failures by their own limit |
| Store.Store.PutChangeSet | internal/store/store.go:308-325 | stores under package, kind and range; refuses a set without package |
| Store.CascadeClears | internal/store/schema.sql:10-54 | inserting a scan and deleting the others leaves exactly its rows and no assessment, by the cascades |
| Store.OneLiveScan | internal/store/schema.sql:10-14 | at most one scan is live, and the next id is the largest plus one |
| Store.SupersededIsLatest | internal/store/store.go:132-135 | the scan saved last is the one read |
| Store.ImpactIsLive | internal/store/store.go:366-376 | an assessment is read only if it belongs to the live scan, under its own key |
| Store.IndexAgreesWithScan | internal/store/store.go:198-205 | the index finds exactly what a search of the live scan for the ref string finds |
| Store.ApplyConsistent | internal/store/store.go:132-175 | every operation keeps the rows of all tables those of the one live scan |
| Store.RunKeeps | internal/store/store.go:132-175 | over every run the tables stay consistent and committed ids strictly increase |
| Impact.AssessCall.Step | internal/server/impact.go:18-117 | each atomic step of the handler does what the transition says: at most one store statement, and the send as a step of its own |
| Impact.AdvanceWrites | internal/server/impact.go:106-116 | a call writes only its own assessment, under the scan it read, if that scan is still there |
| Impact.RunSafe | internal/server/impact.go:59-116 | in every interleaving each stored assessment is what the agent found for its own target, stream and change-set range in the inventory saved under its scan id |
| Impact.ReadsAreCurrent | internal/store/store.go:366-388 | whatever Impact returns was computed from the inventory that is live at that moment |
| Impact.ResultsAreCurrent | internal/server/impact.go:63-116 | when the statement that settles a call's result has run, cached read or write, the result was computed from the then live inventory, for the key asked for, and is what the store serves |
| Impact.SendsAreCurrent | internal/server/impact.go:63-117 | what a call sends later is that result; its scan is still the live one, and its key still served, exactly if no scan committed in between |
| Impact.StaleSend | internal/server/impact.go:113-117 | a scan committed between the statement and the send makes the call send what is neither live nor served any more |
| Impact.StaleSendHappens | internal/server/impact.go:113-117 | some run sends an assessment that was not computed from the inventory then live |
| Impact.SupersededCallFails | internal/server/impact.go:113-115 | a call whose scan was superseded while the agent worked fails and writes nothing |
| Impact.ScanInvalidates | internal/store/store.go:132-175 | after a committed scan no assessment is served |
| Calls.AnswersRequest | internal/server/impact.go:40-57 | whatever a call sends is about the resource it was asked for, and about the stream and the range as far as the request names them |
| Calls.RunsAsAlone | internal/server/impact.go:40-117 | a call comes to the same phase however it interleaves with others, as long as no scan commits and nothing is stored under its key |
| Calls.StoredIsSent | internal/server/impact.go:62-67 | while an assessment is stored under what a request asks for, a served call sends that one, whatever the agent would say |
| Calls.RepeatIsServed | internal/server/impact.go:62-67 | after a call settled on an answer, with no scan committed and nothing newer under its key since, a second call with the same request sends the same answer from the store, for every agent |
| Calls.AgentIsAsked | internal/server/impact.go:90-116 | with nothing stored, the agent is asked about exactly the resource, stream, range, change set and live inventory; its answer is stored and sent, and if it has none the call fails and nothing is stored |
| Calls.NothingToAssess | internal/server/impact.go:48-62 | without a scan, or without a change set given or resolved, the call fails |
| Calls.UnservedEnds | internal/server/impact.go:59-74 | a statement that is not served ends the call; nothing is written or sent, and a failed cache read does not reach the agent |
| Server.CachedScan | internal/server/scan.go:119-133 | the latest scan, with a missing one told apart from a failing store |
| Server.ResourceStream | internal/server/versions.go:167-202 | the first resource equal to the target and its named or primary stream, each failure told apart |
| Server.StreamMeans | internal/server/versions.go:167-202 | a lookup finds exactly the first resource with the ref, and its first stream with the id, or its first stream for "" |
| Server.StreamFailsMeans | internal/server/versions.go:172-202 | no scan or no streams is a failed precondition, a missing resource or stream id is not found |
| Server.SearchesAgree | internal/server/scan.go:97-103 | comparing fields and comparing ref strings find the same resource among well-formed refs |
| Server.IndexedLookupAgrees | internal/store/store.go:197-216 | Store.Resource answers what GetResource's search of the scan answers |
| Helm.DeployedFrom | internal/resolve/helm.go:39-64 | first chart and app version, and the canonical homepage and source links |
| Helm.Verify | internal/resolve/helm.go:97-129 | the grade of an index: version, app version and identity overlap |
| Evidence.GradeMeans | internal/resolve/helm.go:39-129 | strong match exactly if the first entry of the deployed chart version agrees in app version and shares a canonical home or source URL with the links of the release; version match exactly if it agrees and one side tells no such URL |
| Evidence.SamePageMeans | internal/resolve/helm.go:66-80 | addresses of one host are the same exactly if their paths, up to a final slash, and queries are; scheme and case of the host do not matter |
| Helm.CollectRemote | internal/resolve/helm.go:111-119 | exactly the canonical forms of the entry's home and sources |
| Helm.Overlaps | internal/resolve/helm.go:123-128 | finds an overlap exactly if there is one, in whatever order the map is visited |
| Helm.Shortlist | internal/resolve/helm.go:134-164 | the filtering, deduplicating and sorting loop yields the specified shortlist |
| Helm.RepresentativesCover | internal/resolve/helm.go:135-150 | deduplication keeps the first eligible package of every repository and nothing else |
| Helm.ShortlistSpec | internal/resolve/helm.go:131-164 | at most five, distinct repositories, strictly ranked by trust and URL; every eligible package is represented or cut off below five better ones |
| Evidence.TrustMeans | internal/resolve/helm.go:151-178 | more trusted is official before not, then verified publisher before not, then more organisations; equal trust is ranked by URL |
| Evidence.ExaminedMeans | internal/resolve/helm.go:131-164 | exactly those packages are examined that represent their repository and have fewer than five others ahead of them |
| Helm.Decide | internal/resolve/helm.go:192-233 | returns p exactly if p wins: the strict trust dominator of the strong matches, else the only official version match of a release without identity |
| Helm.WinnerUnique | internal/resolve/helm.go:185-191 | at most one candidate wins, in a way that depends only on which candidates there are |
| Helm.WinnerEarned | internal/resolve/helm.go:185-233 | with grades from Verify, a release with identity resolves only to a dominating strong match, one without only to the unique official |
| Helm.AddingACandidate | internal/resolve/helm.go:202-231 | one more candidate keeps the winner, leaves none, or wins itself with a strictly greater trust key |
| Helm.ResolveHelm | internal/resolve/helm.go:237-264 | search, shortlist, fetch, grade, decide and guard, as one function of the network's answers |
| Evidence.ChosenMeans | internal/resolve/helm.go:192-233 | a package is chosen exactly if it is examined and: for a release with identity links its index proves the release and all others that do are less trusted; else it is the only official one that matches |
| Evidence.ResolutionMeans | internal/resolve/helm.go:237-264 | a release is resolved to a URL exactly if it has a chart version, the search answers, a listed package is so chosen, and the guard admits its URL |
| Helm.ResolutionEarned | internal/resolve/helm.go:237-264 | a resolved URL is the guarded URL of a shortlisted package whose index earned it |
| Listing.AddingAPackage | internal/resolve/helm.go:237-264 | one more package anywhere in the listing: the winner stays, nobody wins, or the new one wins, no less trusted and strictly more unless the winner was pushed off a full shortlist; the one exception is a package that takes the place of the winner itself |
| Listing.RoomKeepsWinner | internal/resolve/helm.go:160-162 | with fewer than five repositories listed, the winner stays on the shortlist unless its place is taken |
| Listing.PushesOut | internal/resolve/helm.go:151-163 | a full shortlist takes a package of a new repository in, and drops its fifth, exactly if that ranks before the fifth |
| Listing.RivalTakesOver | internal/resolve/helm.go:151-163 | on a full shortlist an equally trusted package with a smaller URL pushes the winner out and wins, where nobody would win if both were examined |
| Listing.StrictnessNeedsRoom | internal/resolve/helm.go:160-162 | such listings exist |
| Listing.PlaceTakerHandsOver | internal/resolve/helm.go:141-148 | a package listed before the winner and less trusted than it, of the same repository, takes its place and can make a third win |
| Listing.OrderOfRepositoryMatters | internal/resolve/helm.go:141-148 | such listings exist |
| Resolution.RunBudget | internal/resolve/resolve.go:81-104 | at most 20 attempts a run, at most one for a package, only for packages given |
| Resolution.AttemptsSpaced | internal/server/resolve.go:15-38 | over any number of runs from any table, the table holds exactly the last recordings over what was there, and an attempt comes only after the outcome then known for its package expired: more than its TTL minus one second after its recording |
| Resolution.Coverage | internal/resolve/resolve.go:25-27 | with the same N packages in any order, a working cache, no timeout and no expiry, k runs leave exactly min(N, known before + 20 k) of them recorded |
| Resolution.FullCoverage | internal/resolve/resolve.go:25-27 | so once 20 k >= N, all of them are recorded |
| Resolution.DayIsUndisturbed | internal/server/resolve.go:15-18 | served, uncancelled runs within a day less a second expire nothing, whatever they record |
| Resolution.RunRecords | internal/resolve/resolve.go:81-104 | exactly what a run does: one attempt per missing lookup up to 20; a package is attempted exactly if its lookup misses after fewer than 20 others, and without a row before gets one exactly then |
| Resolution.RunApplies | internal/resolve/resolve.go:81-104 | a usable outcome (recorded at most seven days ago, a day for a failure) is applied and the network left alone; without one, the network is asked and its answer applied exactly if the run is not cancelled and fewer than 20 packages before asked |
| Resolution.MissesStarve | internal/resolve/resolve.go:91-93 | a run records nothing for a package behind 20 lookups that miss, whatever hits are among them |
| Resolution.DailyFailuresStarve | internal/resolve/resolve.go:81-104 | if 20 packages ahead of p, in any order and among any others, fail in every scan and their failures expire between scans, no number of scans from any table changes what is recorded for p |
| Resolution.SomeChartStarves | internal/resolve/resolve.go:81-104 | such scans exist, for any number of days |
| Upstreams.DetectedResource.StampOn | internal/resolve/resolve.go:135-147 | sets registry, chart source and provenance of one resource, and nothing else |
| Upstreams.Apply | internal/resolve/resolve.go:129-148 | stamps every resource of the group in place, however often it is listed |
| Upstreams.EnrichedFacts | internal/resolve/resolve.go:107-148 | an enriched resource is no longer eligible; stamping twice is stamping once |
| Enrichment.EligibleMeans | internal/resolve/resolve.go:107-126 | exactly Helm packages with a name and no registry, whose first chart stream has no source, are due |
| Enrichment.EnrichedMeans | internal/resolve/resolve.go:129-148 | a stamp sets the registry, and source and provenance of the first chart stream, and changes nothing else |
| Upstreams.ResolutionCache.Resolution | internal/server/resolve.go:28-34 | the stored outcome within its TTL; a store error reads as a miss |
| Upstreams.ResolutionCache.PutResolution | internal/server/resolve.go:36-38 | records the outcome, or nothing if the store fails |
| Upstreams.Group | internal/resolve/resolve.go:63-74 | the eligible resources by package, packages in order of first appearance |
| Enrichment.OrderMeans | internal/resolve/resolve.go:63-74 | packages are handled in the order in which their first due resource was detected |
| Upstreams.HandlePackage | internal/resolve/resolve.go:82-104 | one iteration: cache hit, budget, attempt, apply and record |
| Upstreams.Upstreams | internal/resolve/resolve.go:59-105 | the whole run leaves resources and table as the specified run does |
| Upstreams.RunEnriches | internal/resolve/resolve.go:54-58 | ineligible resources stay; those of one package all get the same registry and chart source and stop being eligible, or all stay |
| Enrichment.RunMeans | internal/resolve/resolve.go:54-105 | each due resource comes to its usable recorded outcome, or within the budget to what the first due resource of its package resolves to, or stays; the others stay |
| Semver.CompareLinear | internal/vers/vers.go:33-48 | precedence of parsed versions is antisymmetric, transitive, total, and zero only on equals |
| Semver.ParseInvertsRender | internal/vers/vers.go:26 | every version is read back from its text |
| Semver.RenderInvertsParse | internal/vers/vers.go:26 | every accepted string denotes a valid version, and its rendering denotes the same |
| Semver.BuildIgnored | internal/vers/vers.go:47 | build metadata does not affect what is compared |
| Precedence.PrecedenceMeans | internal/vers/vers.go:33-48 | section 11 of Semantic Versioning 2.0.0: the first differing number decides; no pre-release is above any; then the first differing identifier, numbers by value and below alphanumerics, and a proper prefix is below the longer list |
| Precedence.TextsExactly | internal/vers/vers.go:19-31 | a string is read as a version exactly if it is "v" and its numbers, pre-release and build metadata, where "v1" and "v1.2" may leave out zeros |
| Precedence.CompareMeans | internal/vers/vers.go:38-48 | comparing two strings that denote versions, with or without "v" and surrounding space, answers 1, 0 or -1 by their precedence |
| Precedence.IncomparableIsZero | internal/vers/vers.go:32-53 | anything else is incomparable, for which Compare answers 0 as for equals |
| Precedence.SortableMeans | internal/vers/vers.go:17-31 | under exactly three schemes exactly the strings that denote a version are sortable, and each denotes one |
| Vers.CompareAntisymmetric | internal/vers/vers.go:38-48 | a comparison is defined exactly if both sides are sortable; then exchanging the sides flips the sign, and every string equals itself |
| Vers.CompareTransitive | internal/vers/vers.go:38-48 | at most is transitive |
| Vers.CompareIgnoresBuild | internal/vers/vers.go:38-48 | strings that differ in build metadata only are interchangeable |
| Vers.SchemesAgree | internal/vers/vers.go:19-31 | the ordered schemes share one order; the others sort nothing |
| Vers.SortAscending | internal/vers/vers.go:64-75 | the stable ascending arrangement of exactly the sortable inputs |
| Precedence.AscendingMeans | internal/vers/vers.go:64-75 | sorting never leaves a higher version before a lower one, and of every version exactly its inputs, in the order they came in |
| Orders.StableUnique | internal/vers/vers.go:71-73 | there is only one stable ordered arrangement of a list |
| Orders.StablePermutes | internal/vers/vers.go:71-73 | a stable arrangement is a permutation |
| Orders.SliceStable | internal/vers/vers.go:71-73 | the in-place sort leaves the stable arrangement of what was there |
| Orders.RangesConcat | internal/server/changes.go:155-177 | sorting two adjoining ranges one after the other is sorting their union |
| Versions.FetchVersions | internal/server/versions.go:101-146 | the source's list, entry by entry, or the specific failure |
| VersionLists.FetchMeans | internal/server/versions.go:101-146 | the source entry by entry: releases as stable versions or pre-releases, index entries never as pre-releases; or the specific failure |
| Versions.Latest | internal/server/versions.go:83-91 | the last stable version, else the last version, else none |
| Versions.StreamVersions | internal/server/versions.go:58-98 | the cached list while fresh, else the sorted fetched one, which is then cached at its own time; a store error surfaces |
| VersionLists.StreamMeans | internal/server/versions.go:58-98 | the cached list is answered while not older than an hour, whatever the network says; else exactly the sortable ones of what the source lists |
| VersionLists.ServedForAnHour | internal/server/versions.go:20-98 | a list that was fetched and cached is what is answered up to an hour after the second it was cached in, and not later |
| Versions.StreamKeepsGood | internal/server/versions.go:56-98 | every list answered or cached is ascending, sortable, and carries the latest of it |
| Versions.SelectListing | internal/server/versions.go:37-52 | the versions not before current, and the number of stable ones above it |
| Versions.ListVersions | internal/server/versions.go:24-54 | the RPC's answer and the database it leaves |
| Versions.ListingIsSuffix | internal/server/versions.go:40-48 | the listing is exactly a suffix of the ascending list, from the current version on |
| Versions.LatestIsMaximalStable | internal/server/versions.go:83-91 | if there is a stable version, latest is one and none is above it |
| Versions.BehindIffStableLatestAbove | internal/server/versions.go:37-52 | behind is positive exactly if a stable version exists and latest is above current |
| Versions.BehindVersusLatest | internal/server/versions.go:89-91 | "behind exactly if latest is above current" holds exactly unless only pre-releases are listed and the last is above current |
| Versions.OnlyPrereleases | internal/server/versions.go:89-91 | such a list exists |
| Changes.SelectReleases | internal/server/changes.go:153-178 | the stable releases in (from, to], oldest first, ties in the source's order |
| Changes.RangesCompose | internal/server/changes.go:153-178 | the changelog of (a, c] is that of (a, b] followed by that of (b, c] |
| Changes.FetchReleaseNotes | internal/server/changes.go:129-182 | the notes of the first supported source, or the specific failure |
| Changes.StructureReleases | internal/server/changes.go:186-231 | the agent's extraction, or exactly when it has no credentials every note as one verbatim change of full confidence with its provenance |
| Changes.ResolveRange | internal/server/changes.go:79-124 | the cached set, else the structured one, which is then cached; each failure told apart |
| Changes.ResolveChangeSet | internal/server/changes.go:55-125 | default bounds, then the range: the answer and the database it leaves |
| Changelog.GivenRangeAnswer | internal/server/changes.go:66-124 | for given bounds not cached yet: exactly the stable releases above the first and at most the second, in version order, by the agent or verbatim; none found if there are none; and the answer is cached under the range |
| Changelog.CachedRangeAnswer | internal/server/changes.go:83-95 | a cached range is answered from the cache, whatever the network and the agent would say |
| Changelog.ReportsCompose | internal/server/changes.go:55-124 | what GetChanges reports from a to c is what it reports from a to b followed by what it reports from b to c, verbatim and whenever each is asked |
| Changelog.AnswersRange | internal/server/changes.go:66-124 | in every reachable database an answer is about the stream's package and kind, from the given bound or the deployed version to the given bound or the latest version, and was made of the releases of that range by this or an earlier request |
| Changelog.CachedWasMade | internal/server/changes.go:83-124 | every cached change set was made by one of the requests, for its own package, kind and range |
| Changelog.ReleasesMean | internal/server/changes.go:129-150 | the releases come from the repository of the first release-notes source |
| Changelog.OwnerRepoMeans | internal/server/changes.go:233-245 | owner and repository are exactly the first two parts of a github.com path, between slashes |
| Changes.BehindIsChangelogLength | internal/server/changes.go:66-78 | versions_behind is the number of releases in the default range |
| Changes.DefaultChangesAgree | internal/server/changes.go:66-124 | GetChanges by default answers the cached range, else a set of `behind` releases, none found if nothing is behind; if nothing is listed or deployed the range cannot be determined |
| Changes.NothingListed | internal/server/changes.go:79-82 | for a repository without releases nothing is behind, and the answer is an undeterminable range, not "no releases found" |
| Changes.EmptyRepositoryExists | internal/server/changes.go:79-82 | such a stream exists |
| Changes.ReachableListsGood | internal/server/versions.go:93-96 | every version list cached by any interleaving of the list writes of requests with other writes is ascending, sortable and carries its latest |
| Changes.CachedWasFetched | internal/server/versions.go:62-97 | every cached list was written under its own key by one of those writes, from what that one fetched |
| Changes.ListVersionsMeans | internal/server/versions.go:24-98 | in every reachable database, ListVersions answers the stream asked for, with its deployed version: exactly the tail of the version list for that stream from there on, its latest, and the number of stable versions above |
| Changes.AnswersMean | internal/server/versions.go:56-98 | the same for a stream looked up at any earlier time, as other requests may write in between |
| Scan.Enrich | internal/server/scan.go:42-48 | the snapshot taken after in-place enrichment |
| Scan.SaveDetected | internal/server/scan.go:42-54 | the enriched scan is saved and returned exactly if refs are distinct and the store works; otherwise only resolutions changed |
| Scan.OutcomesKeepRefs | internal/server/scan.go:42-53 | enrichment cannot make a scan unsavable |
| Scan.ListResources | internal/server/scan.go:58-84 | one page and the next token; a malformed or out-of-range token is refused |
| Scan.TokenLeads | internal/server/scan.go:69-82 | a token leads to the page at its offset |
| Scan.TokensMean | internal/server/scan.go:66-74 | exactly the empty token and numerals of offsets within the scan are accepted, each for its page |
| Scan.PageAdvances | internal/server/scan.go:75-82 | a page holds as many resources as asked for, or all that are left; the token is empty exactly at the end, and otherwise leads right behind the page |
| Scan.FollowYieldsAll | internal/server/scan.go:66-83 | following the tokens, with sizes that vary, yields every resource once, in order |
| Scan.FollowEnds | internal/server/scan.go:66-83 | following the tokens ends, after at most one page more than there are resources |
| Scan.GetResource | internal/server/scan.go:88-117 | the first resource equal to the target with exactly the edges that touch it |
| Decimal.ItoaReadsBack | internal/server/scan.go:81 | a numeral reads back as its number, without leading zero |
| Decimal.AtoiInvertsItoa | internal/server/scan.go:70-81 | Atoi inverts Itoa within 64 bits |
| Decimal.AtoiMeans | internal/server/scan.go:69-74 | exactly numerals with an optional sign and leading zeros, within 64 bits, are read, as their number |
| Detect.Run | internal/detect/detect.go:77-99 | the first selected failure, an unknown name, or all findings in registration order |
| Detect.FindingsMean | internal/detect/detect.go:77-94 | the findings are those of the detectors one after the other; a detector contributes what it reports if the filter is empty or names it, and it applies |
| Detect.FailureMeans | internal/detect/detect.go:80-91 | a run fails with the first detector asked that fails |
| Detect.MatchesCommonNames | internal/detect/detect.go:80-84 | with distinct names, as many detectors match as names are common to filter and registry |
| Detect.CountCheckExact | internal/detect/detect.go:95-97 | the count check passes exactly if the filter repeats nothing and names only registered detectors |
| Detect.CheckNeedsDistinctNames | internal/detect/detect.go:95-97 | the check is right about every filter exactly if the registered names are distinct |
| Detect.UnknownNamePasses | internal/detect/detect.go:95-97 | with two detectors of one name it can also let an unknown name through |
| Cluster.RedactEntry | internal/agent/cluster.go:131-135 | deletes "value" from an env entry that is a map, in place |
| Cluster.RedactContainer | internal/agent/cluster.go:122-136 | strips the env entries of one container, in place |
| Cluster.RedactLists | internal/agent/cluster.go:117-137 | strips the three container lists of one map, in place |
| Cluster.Redact | internal/agent/cluster.go:114-146 | for every order in which maps are visited, the heap ends as the cleaned tree |
| Cluster.KeepIdentity | internal/agent/cluster.go:93-100 | a new map of name, namespace and labels, if there is metadata |
| Cluster.KeepSections | internal/agent/cluster.go:101-105 | the kept sections, shared with the object |
| Cluster.TrimObject | internal/agent/cluster.go:92-108 | the trimmed object is the cleaned kept part; the object's own top map is untouched |
| Cluster.TrimmedHidesEnvValues | internal/agent/cluster.go:87-91 | no path through an env entry's "value" exists in what the agent sees |
| Cluster.TrimmedPaths | internal/agent/cluster.go:87-108 | the agent sees exactly name, namespace and labels of the metadata, and spec, status, webhooks, rules, roleRef and subjects, without the paths through an env value; everything there of its kind, scalars unchanged |
| Cluster.NothingElseShown | internal/agent/cluster.go:87-108 | no annotation and nothing of a "data" section is seen |
| Redaction.CleanAt | internal/agent/cluster.go:110-146 | exactly the paths through an env entry's "value" are gone; everything else is there |
| Redaction.RedactedPaths | internal/agent/cluster.go:110-113 | the same with the three container lists and the env entry spelled out; what stands at a path is of the same kind, scalars unchanged |
| Redaction.CleanIdempotent | internal/agent/cluster.go:110-146 | redacting twice is redacting once |
| Ref.StringInvertsParse | internal/ref/ref.go:15-39 | every accepted string is the string form of the ref read from it |
| Ref.ParseInvertsString | internal/ref/ref.go:15-39 | a ref reads back from its string form exactly if it is well formed |
| Ref.ParseMeans | internal/ref/ref.go:15-39 | a string is read as a ref exactly if it spells it: detector, colon, and the name behind its namespace |
| Ref.EqualIffSameString | internal/server/scan.go:135-139 | on well-formed refs, equal fields and equal strings are the same test |
| Ref.AmbiguousString | internal/ref/ref.go:15-21 | without well-formedness two refs can share a string form |
| Ref.ApiValidWellFormed | proto/kdelta/v1/resource.proto:15-37 | every ref the API accepts is well formed |

## Left out

- internal/upstream: HTTP, DNS, the egress guard's own logic, URL, JSON and YAML decoding are arbitrary functions of their input.
- golang.org/x/mod/semver is not part of the repository; its comparison is written out from sections 9 to 11 of Semantic Versioning 2.0.0.
- sort.SliceStable is written as its insertion phase; any stable sort leaves the same arrangement, by Orders.StableUnique.
- SQL text, protobuf encoding, the WAL, schema migration and file handling of the store; a table is a map and a payload its message.
- 64-bit widths of ids, times and offsets, and the exhaustion of AUTOINCREMENT ids; only Atoi's range is modelled.
- Go strings are compared by byte, here by character; the orders agree on UTF-8.
- Servers built without store, agent, upstream client or cluster connection, which answer before any of this, and the fetch without a cache.
- Context deadlines are reduced to whether a context is cancelled when the loop looks at it, and a statement that is not served.
- Progress and partial messages, and the texts of errors.
- Model calls, prompts, runners, MCP, the Kubernetes clients, Helm release decoding, the command line and the web UI.
- Sibling answers inside one GetChanges call: the network answers a fixed request the same throughout one call.
- VersionRange events, which no code evaluates.
- Plain reads and writes of one row (version lists, resolutions and change sets) are specified by their methods' contracts in Store.dfy and have no row of their own above.
- Impact.AssessCall.Step: takes the outcome of resolveChangeSet as given, since its store writes are steps of their own in a run.
- Resolution.AttemptsSpaced: needs a cache that answers, since an unread cache is a miss by design; runs follow one another, as two scans at once may both attempt a package.
- Cluster.Redact: asks that no map occurs twice in the decoded object, which holds of decoded JSON; allocation failures are not modelled.
