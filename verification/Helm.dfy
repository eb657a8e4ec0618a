/** internal/resolve/helm.go: grading, ranking and choosing chart repository candidates. */
module Helm {
  import opened Wrappers
  import opened Api
  import opened Orders
  import opened Upstream
  import Semver

  const MAX_CANDIDATE_FETCHES := 5

  /** The release-side identity the cluster recorded. */
  datatype Deployed = Deployed(name: string, chartVersion: string, appVersion: string, identity: set<string>)

  function TrimSlash(s: string): string {
    if s != [] && s[|s| - 1] == '/' then s[..|s| - 1] else s
  }

  function CanonicalUrl(up: Client, raw: string): Option<string> {
    match up.parseUrl(raw)
    case None => None
    case Some(u) =>
      if (u.scheme != "http" && u.scheme != "https") || u.host == "" then None
      else Some(up.toLower(u.host) + TrimSlash(u.path) + (if u.rawQuery != "" then "?" + u.rawQuery else ""))
  }

  // ----- The deployed side -----

  predicate IsIdentityLink(up: Client, l: Link) {
    (l.kind == HomepageLink || l.kind == SourceLink) && CanonicalUrl(up, l.url).Some?
  }

  function IdentityOf(up: Client, links: seq<Link>): set<string> {
    set l | l in links && IsIdentityLink(up, l) :: CanonicalUrl(up, l.url).value
  }

  /** The first non-empty current value of a stream of the kind, or "". */
  function FirstValue(streams: seq<VersionStream>, kind: VersionKind): string {
    if streams == [] then ""
    else
      var earlier := FirstValue(streams[..|streams| - 1], kind);
      var last := streams[|streams| - 1];
      if earlier == "" && last.kind == kind then last.current else earlier
  }

  function DeployedOf(up: Client, r: Resource): Deployed {
    Deployed(r.upstream.name, FirstValue(r.streams, KindChart), FirstValue(r.streams, KindApp), IdentityOf(up, r.links))
  }

  method DeployedFrom(up: Client, r: Resource) returns (d: Deployed)
    ensures d == DeployedOf(up, r)
  {
    d := Deployed(r.upstream.name, "", "", {});
    var i := 0;
    while i < |r.streams|
      invariant 0 <= i <= |r.streams|
      invariant d ==
        Deployed(r.upstream.name, FirstValue(r.streams[..i], KindChart), FirstValue(r.streams[..i], KindApp), {})
    {
      var stream := r.streams[i];
      assert r.streams[..i + 1][..i] == r.streams[..i];
      match stream.kind {
        case KindChart => if d.chartVersion == "" { d := d.(chartVersion := stream.current); }
        case KindApp => if d.appVersion == "" { d := d.(appVersion := stream.current); }
        case _ =>
      }
      i := i + 1;
    }
    assert r.streams[..i] == r.streams;
    i := 0;
    while i < |r.links|
      invariant 0 <= i <= |r.links|
      invariant d == DeployedOf(up, r).(identity := IdentityOf(up, r.links[..i]))
    {
      var link := r.links[i];
      assert r.links[..i + 1] == r.links[..i] + [link];
      i := i + 1;
      if link.kind != HomepageLink && link.kind != SourceLink { continue; }
      var c := CanonicalUrl(up, link.url);
      if c.Some? {
        assert IsIdentityLink(up, link);
        d := d.(identity := d.identity + {c.value});
      }
    }
    assert r.links[..i] == r.links;
  }

  // ----- Grading a candidate -----

  datatype MatchLevel = NoMatch | VersionMatch | StrongMatch

  /** The position of the first index entry with the version, or |entries|. */
  function FirstEntry(entries: seq<ChartVersion>, version: string): (i: nat)
    ensures i <= |entries| && forall j :: 0 <= j < i ==> entries[j].version != version
    ensures i < |entries| ==> entries[i].version == version
  {
    if entries == [] || entries[0].version == version then 0 else 1 + FirstEntry(entries[1..], version)
  }

  function CanonicalUrls(up: Client, urls: seq<string>): set<string> {
    set s | s in urls && CanonicalUrl(up, s).Some? :: CanonicalUrl(up, s).value
  }

  lemma CanonicalUrlsStep(up: Client, urls: seq<string>, url: string)
    ensures var c := CanonicalUrl(up, url);
      CanonicalUrls(up, urls + [url]) == CanonicalUrls(up, urls) + if c.Some? then {c.value} else {}
  {
    forall s ensures s in urls + [url] <==> s in urls || s == url {}
  }

  function RemoteOf(up: Client, entry: ChartVersion): set<string> {
    CanonicalUrls(up, [entry.home] + entry.sources)
  }

  function Grade(up: Client, d: Deployed, entries: seq<ChartVersion>): MatchLevel {
    var i := FirstEntry(entries, d.chartVersion);
    if i == |entries| then NoMatch
    else if d.appVersion != "" && entries[i].appVersion != "" && d.appVersion != entries[i].appVersion then NoMatch
    else
      var remote := RemoteOf(up, entries[i]);
      if d.identity == {} || remote == {} then VersionMatch
      else if d.identity * remote != {} then StrongMatch
      else NoMatch
  }

  /** The identity URLs an index entry declares. */
  method CollectRemote(up: Client, entry: ChartVersion) returns (remote: set<string>)
    ensures remote == RemoteOf(up, entry)
  {
    remote := {};
    var home := CanonicalUrl(up, entry.home);
    if home.Some? { remote := remote + {home.value}; }
    CanonicalUrlsStep(up, [], entry.home);
    var k := 0;
    while k < |entry.sources|
      invariant 0 <= k <= |entry.sources|
      invariant remote == CanonicalUrls(up, [entry.home] + entry.sources[..k])
    {
      var c := CanonicalUrl(up, entry.sources[k]);
      CanonicalUrlsStep(up, [entry.home] + entry.sources[..k], entry.sources[k]);
      assert [entry.home] + entry.sources[..k + 1] == [entry.home] + entry.sources[..k] + [entry.sources[k]];
      if c.Some? { remote := remote + {c.value}; }
      k := k + 1;
    }
    assert entry.sources[..k] == entry.sources;
  }

  /** Ranges over the remote identity in whatever order the map yields it. */
  method Overlaps(remote: set<string>, identity: set<string>) returns (yes: bool)
    ensures yes <==> identity * remote != {}
  {
    var left := remote;
    while left != {}
      invariant left <= remote && (remote - left) * identity == {}
      decreases left
    {
      var c :| c in left;
      if c in identity {
        assert c in identity * remote;
        return true;
      }
      left := left - {c};
    }
    yes := false;
  }

  method Verify(up: Client, d: Deployed, entries: seq<ChartVersion>) returns (level: MatchLevel)
    ensures level == Grade(up, d, entries)
  {
    var i := 0;
    while i < |entries| && entries[i].version != d.chartVersion
      invariant 0 <= i <= |entries|
      invariant forall j :: 0 <= j < i ==> entries[j].version != d.chartVersion
    {
      i := i + 1;
    }
    assert i == FirstEntry(entries, d.chartVersion);
    if i == |entries| { return NoMatch; }
    var entry := entries[i];
    if d.appVersion != "" && entry.appVersion != "" && d.appVersion != entry.appVersion { return NoMatch; }
    var remote := CollectRemote(up, entry);
    if |d.identity| == 0 || |remote| == 0 { return VersionMatch; }
    var overlap := Overlaps(remote, d.identity);
    level := if overlap then StrongMatch else NoMatch;
  }

  // ----- Ranking -----

  predicate Official(p: HubPackage) { p.official || p.repository.official }

  function TrustKey(p: HubPackage): (int, int, int) {
    (if Official(p) then 1 else 0, if p.repository.verifiedPublisher then 1 else 0, p.productionOrganizations)
  }

  /** Strictly less trusted: the lexicographic order of the keys. */
  predicate LessTrusted(p: HubPackage, q: HubPackage) {
    var (a, b) := (TrustKey(p), TrustKey(q));
    a.0 < b.0 || (a.0 == b.0 && (a.1 < b.1 || (a.1 == b.1 && a.2 < b.2)))
  }

  ghost predicate ByTrust(p: HubPackage, q: HubPackage) {
    !LessTrusted(p, q)
  }

  /** Most trusted first, then by repository URL. */
  ghost predicate ByRank(p: HubPackage, q: HubPackage) {
    LessTrusted(q, p) || (!LessTrusted(p, q) && Semver.CompareString(p.repository.url, q.repository.url) <= 0)
  }

  /** The shortlist's comparison. */
  predicate RanksBefore(p: HubPackage, q: HubPackage) {
    if TrustKey(p) != TrustKey(q) then LessTrusted(q, p)
    else Semver.CompareString(p.repository.url, q.repository.url) < 0
  }

  lemma ByRankPreorder()
    ensures TotalPreorder(ByRank)
    ensures forall p, q :: RanksBefore(p, q) <==> !ByRank(q, p)
  {
    Semver.CompareStringLinear();
    var c := Semver.CompareString;
    forall p: HubPackage, q: HubPackage
      ensures ByRank(p, q) || ByRank(q, p)
      ensures RanksBefore(p, q) <==> !ByRank(q, p) {
      assert c(q.repository.url, p.repository.url) == -c(p.repository.url, q.repository.url);
    }
    forall p: HubPackage, q: HubPackage, r: HubPackage | ByRank(p, q) && ByRank(q, r) ensures ByRank(p, r) {
      assert c(p.repository.url, q.repository.url) <= 0 && c(q.repository.url, r.repository.url) <= 0
        ==> c(p.repository.url, r.repository.url) <= 0;
    }
  }

  // ----- The shortlist -----

  predicate Eligible(up: Client, name: string, p: HubPackage) {
    && HelmChart(p) && up.equalFold(p.normalizedName, name)
    && CanonicalUrl(up, p.repository.url).Some? && up.egressAllowed(p.repository.url)
  }

  predicate SameRepository(up: Client, p: HubPackage, q: HubPackage) {
    CanonicalUrl(up, p.repository.url) == CanonicalUrl(up, q.repository.url)
  }

  /** The first eligible package of each repository, in listing order. */
  function Representatives(up: Client, name: string, packages: seq<HubPackage>): seq<HubPackage> {
    if packages == [] then []
    else
      var kept := Representatives(up, name, packages[..|packages| - 1]);
      var p := packages[|packages| - 1];
      if Eligible(up, name, p) && !(exists q :: q in kept && SameRepository(up, p, q)) then kept + [p] else kept
  }

  function Cutoff(ranked: seq<HubPackage>): seq<HubPackage> {
    if |ranked| > MAX_CANDIDATE_FETCHES then ranked[..MAX_CANDIDATE_FETCHES] else ranked
  }

  ghost function Shortlisted(up: Client, name: string, packages: seq<HubPackage>): seq<HubPackage> {
    ByRankPreorder();
    Cutoff(Arrange(ByRank, Representatives(up, name, packages)))
  }

  method Shortlist(up: Client, name: string, packages: seq<HubPackage>) returns (kept: seq<HubPackage>)
    ensures kept == Shortlisted(up, name, packages)
  {
    var seen: set<string> := {};
    kept := [];
    var i := 0;
    while i < |packages|
      invariant 0 <= i <= |packages|
      invariant kept == Representatives(up, name, packages[..i])
      invariant forall q :: q in kept ==> CanonicalUrl(up, q.repository.url).Some?
      invariant seen ==
        set q | q in kept && CanonicalUrl(up, q.repository.url).Some? :: CanonicalUrl(up, q.repository.url).value
    {
      var p := packages[i];
      assert packages[..i + 1][..i] == packages[..i];
      i := i + 1;
      if !HelmChart(p) || !up.equalFold(p.normalizedName, name) { continue; }
      var canonical := CanonicalUrl(up, p.repository.url);
      if canonical.None? || canonical.value in seen { continue; }
      if !up.egressAllowed(p.repository.url) { continue; }
      seen := seen + {canonical.value};
      kept := kept + [p];
    }
    assert packages[..i] == packages;
    ByRankPreorder();
    var ranked := SortSlice(kept, RanksBefore, ByRank);
    ArrangeUnique(ByRank, kept, ranked);
    kept := if |ranked| > MAX_CANDIDATE_FETCHES then ranked[..MAX_CANDIDATE_FETCHES] else ranked;
  }

  ghost predicate DistinctRepositories(up: Client, s: seq<HubPackage>) {
    forall i, j :: 0 <= i < j < |s| ==> !SameRepository(up, s[i], s[j])
  }

  /** p is the first eligible package of its repository in the listing. */
  ghost predicate IsFirst(up: Client, name: string, packages: seq<HubPackage>, p: HubPackage) {
    exists i :: 0 <= i < |packages| && packages[i] == p && Eligible(up, name, p) &&
      forall j :: 0 <= j < i ==> !(Eligible(up, name, packages[j]) && SameRepository(up, packages[j], p))
  }

  ghost predicate Represented(up: Client, name: string, packages: seq<HubPackage>, reps: seq<HubPackage>, p: HubPackage)
  {
    exists q :: q in reps && SameRepository(up, q, p) && IsFirst(up, name, packages, q)
  }

  lemma IsFirstLonger(up: Client, name: string, packages: seq<HubPackage>, p: HubPackage)
    requires packages != [] && IsFirst(up, name, packages[..|packages| - 1], p)
    ensures IsFirst(up, name, packages, p)
  {
    var front := packages[..|packages| - 1];
    var i :| 0 <= i < |front| && front[i] == p && Eligible(up, name, p) &&
      forall j :: 0 <= j < i ==> !(Eligible(up, name, front[j]) && SameRepository(up, front[j], p));
    assert packages[i] == p;
    forall j | 0 <= j < i ensures !(Eligible(up, name, packages[j]) && SameRepository(up, packages[j], p)) {
      assert front[j] == packages[j];
    }
  }

  lemma DistinctGrows(up: Client, kept: seq<HubPackage>, p: HubPackage)
    requires DistinctRepositories(up, kept) && forall q :: q in kept ==> !SameRepository(up, p, q)
    ensures DistinctRepositories(up, kept + [p])
  {
    var more := kept + [p];
    forall i, j | 0 <= i < j < |more| ensures !SameRepository(up, more[i], more[j]) {
      assert more[i] in kept;
    }
  }

  lemma EarlierDiffers(up: Client, name: string, front: seq<HubPackage>, kept: seq<HubPackage>, p: HubPackage,
                       last: HubPackage)
    requires Represented(up, name, front, kept, p)
    requires forall q :: q in kept ==> !SameRepository(up, last, q)
    ensures !SameRepository(up, p, last)
  {
    var q :| q in kept && SameRepository(up, q, p) && IsFirst(up, name, front, q);
    assert !SameRepository(up, last, q);
  }

  lemma LastIsFirst(up: Client, name: string, front: seq<HubPackage>, last: HubPackage, kept: seq<HubPackage>)
    requires Eligible(up, name, last) && forall q :: q in kept ==> !SameRepository(up, last, q)
    requires forall p :: p in front && Eligible(up, name, p) ==> Represented(up, name, front, kept, p)
    ensures IsFirst(up, name, front + [last], last)
  {
    var packages := front + [last];
    forall j | 0 <= j < |front| ensures !(Eligible(up, name, packages[j]) && SameRepository(up, packages[j], last)) {
      var p := front[j];
      assert p in front && packages[j] == p;
      if Eligible(up, name, p) {
        EarlierDiffers(up, name, front, kept, p, last);
      }
    }
    assert packages[|front|] == last;
  }

  /** Deduplication keeps, for every eligible package, the first eligible one of its repository, and nothing else. */
  lemma {:induction false} RepresentativesCover(up: Client, name: string, packages: seq<HubPackage>)
    ensures DistinctRepositories(up, Representatives(up, name, packages))
    ensures forall q :: q in Representatives(up, name, packages) ==> IsFirst(up, name, packages, q)
    ensures forall p :: p in packages && Eligible(up, name, p) ==>
      Represented(up, name, packages, Representatives(up, name, packages), p)
  {
    if packages != [] {
      var front, last := packages[..|packages| - 1], packages[|packages| - 1];
      assert packages == front + [last];
      RepresentativesCover(up, name, front);
      var kept, reps := Representatives(up, name, front), Representatives(up, name, packages);
      forall q | q in kept ensures IsFirst(up, name, packages, q) { IsFirstLonger(up, name, packages, q); }
      if reps != kept {
        assert reps == kept + [last];
        DistinctGrows(up, kept, last);
        LastIsFirst(up, name, front, last, kept);
      }
      forall p | p in packages && Eligible(up, name, p) ensures Represented(up, name, packages, reps, p) {
        if p in front {
          var q :| q in kept && SameRepository(up, q, p) && IsFirst(up, name, front, q);
          assert q in reps;
        } else if reps == kept {
          var q :| q in kept && SameRepository(up, last, q);
          assert q in reps;
        } else {
          assert last in reps;
        }
      }
    }
  }

  ghost predicate CutOff(kept: seq<HubPackage>, q: HubPackage) {
    |kept| == 5 && forall k :: k in kept ==> RanksBefore(k, q)
  }

  /** The package's repository is on the shortlist, or was cut off below five better-ranked ones. */
  ghost predicate Accounted(up: Client, name: string, packages: seq<HubPackage>, kept: seq<HubPackage>, p: HubPackage) {
    exists q :: IsFirst(up, name, packages, q) && SameRepository(up, q, p) && (q in kept || CutOff(kept, q))
  }

  lemma KeptOrCutOff(ranked: seq<HubPackage>, kept: seq<HubPackage>, q: HubPackage)
    requires forall i, j :: 0 <= i < j < |ranked| ==> RanksBefore(ranked[i], ranked[j])
    requires kept == Cutoff(ranked)
    requires q in ranked
    ensures q in kept || CutOff(kept, q)
  {
    var n :| 0 <= n < |ranked| && ranked[n] == q;
    if n < |kept| {
      assert kept[n] == q;
    } else {
      forall k | k in kept ensures RanksBefore(k, q) {
        var m :| 0 <= m < |kept| && kept[m] == k;
        assert ranked[m] == k;
      }
    }
  }

  lemma RankTieSameUrl(p: HubPackage, q: HubPackage)
    requires ByRank(p, q) && ByRank(q, p)
    ensures p.repository.url == q.repository.url
  {
    Semver.CompareStringLinear();
    var c := Semver.CompareString;
    assert c(q.repository.url, p.repository.url) == -c(p.repository.url, q.repository.url);
    assert c(p.repository.url, q.repository.url) == 0;
  }

  lemma TwoPlaces<T>(s: seq<T>, m: nat, n: nat)
    requires m < n < |s| && s[m] == s[n]
    ensures multiset(s)[s[m]] >= 2
  {
    assert s == s[..m] + [s[m]] + s[m + 1..n] + [s[n]] + s[n + 1..];
  }

  lemma SecondPlace<T>(s: seq<T>, m: nat)
    requires m < |s| && multiset(s)[s[m]] >= 2
    ensures exists n :: 0 <= n < |s| && n != m && s[n] == s[m]
  {
    var x, before, after := s[m], s[..m], s[m + 1..];
    assert s == before + [x] + after;
    assert x in multiset(before) || x in multiset(after);
    if x in before {
      var k :| 0 <= k < |before| && before[k] == x;
      assert s[k] == x;
    } else {
      var k :| 0 <= k < |after| && after[k] == x;
      assert s[m + 1 + k] == x;
    }
  }

  /** Two places of a permutation come from two places of the original. */
  lemma DistinctPositions<T>(s: seq<T>, t: seq<T>, i: nat, j: nat)
    requires multiset(s) == multiset(t) && i < j < |t|
    ensures exists m, n :: 0 <= m < |s| && 0 <= n < |s| && m != n && s[m] == t[i] && s[n] == t[j]
  {
    assert t[i] in multiset(s) && t[j] in multiset(s);
    var m :| 0 <= m < |s| && s[m] == t[i];
    if t[i] != t[j] {
      var n :| 0 <= n < |s| && s[n] == t[j];
    } else {
      TwoPlaces(t, i, j);
      SecondPlace(s, m);
    }
  }

  /** Representatives of distinct repositories have distinct URLs, so the ranking has no ties. */
  lemma RankedStrictly(up: Client, reps: seq<HubPackage>, ranked: seq<HubPackage>)
    requires TotalPreorder(ByRank) && StableArrangement(ByRank, reps, ranked)
    requires forall p, q :: RanksBefore(p, q) <==> !ByRank(q, p)
    requires DistinctRepositories(up, reps)
    ensures forall i, j :: 0 <= i < j < |ranked| ==>
      RanksBefore(ranked[i], ranked[j]) && !SameRepository(up, ranked[i], ranked[j])
  {
    StablePermutes(ByRank, reps, ranked);
    forall i, j | 0 <= i < j < |ranked|
      ensures RanksBefore(ranked[i], ranked[j]) && !SameRepository(up, ranked[i], ranked[j])
    {
      DistinctPositions(reps, ranked, i, j);
      var m, n :| 0 <= m < |reps| && 0 <= n < |reps| && m != n && reps[m] == ranked[i] && reps[n] == ranked[j];
      assert !SameRepository(up, reps[m], reps[n]);
      if ByRank(ranked[j], ranked[i]) {
        RankTieSameUrl(ranked[i], ranked[j]);
        assert false;
      }
    }
  }

  /**
   The shortlist: at most five first-eligible packages of distinct repositories, strictly
   ranked, accounting for every eligible package.
   */
  lemma ShortlistSpec(up: Client, name: string, packages: seq<HubPackage>)
    ensures
      var kept := Shortlisted(up, name, packages);
      && |kept| <= 5
      && (forall i, j :: 0 <= i < j < |kept| ==> RanksBefore(kept[i], kept[j]) && !SameRepository(up, kept[i], kept[j]))
      && (forall q :: q in kept ==> IsFirst(up, name, packages, q))
      && (forall p :: p in packages && Eligible(up, name, p) ==> Accounted(up, name, packages, kept, p))
  {
    var reps := Representatives(up, name, packages);
    ByRankPreorder();
    RepresentativesCover(up, name, packages);
    var ranked, kept := Arrange(ByRank, reps), Shortlisted(up, name, packages);
    StablePermutes(ByRank, reps, ranked);
    RankedStrictly(up, reps, ranked);
    forall q | q in kept ensures IsFirst(up, name, packages, q) { assert q in ranked; }
    forall p | p in packages && Eligible(up, name, p) ensures Accounted(up, name, packages, kept, p) {
      assert Represented(up, name, packages, reps, p);
      var q :| q in reps && SameRepository(up, q, p) && IsFirst(up, name, packages, q);
      assert q in ranked;
      KeptOrCutOff(ranked, kept, q);
    }
  }

  // ----- Deciding -----

  datatype Candidate = Candidate(pkg: HubPackage, level: MatchLevel)

  predicate IsStrong(c: Candidate) { c.level == StrongMatch }

  predicate IsWeak(c: Candidate) { c.level == VersionMatch }

  predicate IsOfficialVersionMatch(c: Candidate) { c.level == VersionMatch && Official(c.pkg) }

  /** c occurs once, and every other strong candidate is strictly less trusted. */
  ghost predicate Dominates(results: multiset<Candidate>, c: Candidate) {
    && IsStrong(c) && results[c] == 1
    && forall s :: s in results && IsStrong(s) && s != c ==> LessTrusted(s.pkg, c.pkg)
  }

  ghost predicate OnlyOfficial(results: multiset<Candidate>, c: Candidate) {
    && IsOfficialVersionMatch(c) && results[c] == 1
    && forall s :: s in results && IsOfficialVersionMatch(s) ==> s == c
  }

  /** Who wins depends on which candidates there are, not on their order. */
  ghost predicate Wins(d: Deployed, results: multiset<Candidate>, c: Candidate) {
    if exists s :: s in results && IsStrong(s) then Dominates(results, c)
    else d.identity == {} && OnlyOfficial(results, c)
  }

  lemma WinnerUnique(d: Deployed, results: multiset<Candidate>, a: Candidate, b: Candidate)
    requires Wins(d, results, a) && Wins(d, results, b)
    ensures a == b
  {
  }

  ghost function Winner(d: Deployed, results: multiset<Candidate>): Option<HubPackage> {
    if c :| Wins(d, results, c) then Some(c.pkg) else None
  }

  lemma WinnerIs(d: Deployed, results: seq<Candidate>, c: Candidate)
    requires Wins(d, multiset(results), c)
    ensures Winner(d, multiset(results)) == Some(c.pkg)
  {
    forall a | Wins(d, multiset(results), a) ensures a == c { WinnerUnique(d, multiset(results), a, c); }
  }

  lemma CountFilter(p: Candidate -> bool, results: seq<Candidate>, c: Candidate)
    ensures multiset(Filter(p, results))[c] == if p(c) then multiset(results)[c] else 0
    ensures c in Filter(p, results) <==> p(c) && c in multiset(results)
  {
    FilterCount(p, results, c);
    assert c in Filter(p, results) <==> c in multiset(Filter(p, results));
  }

  ghost function ByCandidateTrust(): (Candidate, Candidate) -> bool {
    (a: Candidate, b: Candidate) => ByTrust(a.pkg, b.pkg)
  }

  lemma ByCandidateTrustPreorder()
    ensures TotalPreorder(ByCandidateTrust())
  {
  }

  function StrongOf(results: seq<Candidate>): seq<Candidate> { Filter(IsStrong, results) }

  function OfficialsOf(results: seq<Candidate>): seq<Candidate> { Filter(IsOfficialVersionMatch, results) }

  /** Another element at another place of a sequence in which c occurs once. */
  lemma OtherPlace<T>(s: seq<T>, c: T, i: nat, j: nat)
    requires i < |s| && j < |s| && i != j && s[i] == c && multiset(s)[c] == 1
    ensures s[j] != c
  {
    if s[j] == c {
      if i < j { TwoPlaces(s, i, j); } else { TwoPlaces(s, j, i); }
    }
  }

  lemma SoleElement<T>(s: seq<T>, c: T)
    requires |s| == 1 && s[0] == c
    ensures multiset(s)[c] == 1 && forall x :: x in s ==> x == c
  {
    assert s == [c];
  }

  /** A single strong candidate wins. */
  lemma SoleStrongWins(d: Deployed, results: seq<Candidate>, c: Candidate)
    requires |StrongOf(results)| == 1 && StrongOf(results)[0] == c
    ensures Wins(d, multiset(results), c)
  {
    SoleElement(StrongOf(results), c);
    forall s { CountFilter(IsStrong, results, s); }
    assert c in multiset(results);
  }

  lemma OnceInFilter(p: Candidate -> bool, results: seq<Candidate>, t: seq<Candidate>, c: Candidate)
    requires multiset(t) == multiset(Filter(p, results)) && p(c)
    ensures multiset(t)[c] == multiset(results)[c]
    ensures c in t <==> c in multiset(results)
  {
    CountFilter(p, results, c);
    assert c in t <==> c in multiset(t);
  }

  lemma HeadDominates(results: seq<Candidate>, ranked: seq<Candidate>)
    requires TotalPreorder(ByCandidateTrust()) && |ranked| >= 2
    requires StableArrangement(ByCandidateTrust(), StrongOf(results), ranked)
    requires multiset(ranked) == multiset(StrongOf(results)) && IsStrong(ranked[0])
    requires TrustKey(ranked[0].pkg) != TrustKey(ranked[1].pkg)
    ensures Dominates(multiset(results), ranked[0])
  {
    var c := ranked[0];
    forall i | 1 <= i < |ranked| ensures LessTrusted(ranked[i].pkg, c.pkg) {
      assert ByCandidateTrust()(ranked[0], ranked[1]);
      assert i > 1 ==> ByCandidateTrust()(ranked[1], ranked[i]);
    }
    assert ranked == [c] + ranked[1..];
    assert multiset(ranked) == multiset{c} + multiset(ranked[1..]);
    assert c !in ranked[1..];
    OnceInFilter(IsStrong, results, ranked, c);
    forall s | s in multiset(results) && IsStrong(s) && s != c ensures LessTrusted(s.pkg, c.pkg) {
      OnceInFilter(IsStrong, results, ranked, s);
      assert s in ranked;
    }
  }

  /** Among several, the head of the ranking wins if it is strictly ahead; otherwise nobody does. */
  lemma RankedHead(d: Deployed, results: seq<Candidate>, ranked: seq<Candidate>)
    requires TotalPreorder(ByCandidateTrust()) && |ranked| >= 2
    requires StableArrangement(ByCandidateTrust(), StrongOf(results), ranked)
    ensures TrustKey(ranked[0].pkg) != TrustKey(ranked[1].pkg) ==> Wins(d, multiset(results), ranked[0])
    ensures TrustKey(ranked[0].pkg) == TrustKey(ranked[1].pkg) ==> forall c :: !Wins(d, multiset(results), c)
  {
    var m := multiset(results);
    StablePermutes(ByCandidateTrust(), StrongOf(results), ranked);
    FilterMembers(IsStrong, results);
    assert ranked[0] in ranked && ranked[1] in ranked;
    assert IsStrong(ranked[0]) && ranked[0] in m && ranked[1] in m && IsStrong(ranked[1]);
    if TrustKey(ranked[0].pkg) != TrustKey(ranked[1].pkg) {
      HeadDominates(results, ranked);
    } else {
      forall c ensures !Wins(d, m, c) {
        if Dominates(m, c) {
          OnceInFilter(IsStrong, results, ranked, c);
          var i :| 0 <= i < |ranked| && ranked[i] == c;
          var j := if i == 0 then 1 else 0;
          assert ranked[j] in m && IsStrong(ranked[j]);
          assert i > 0 ==> ByCandidateTrust()(ranked[0], ranked[i]);
          OtherPlace(ranked, c, i, j);
        }
      }
    }
  }

  lemma NoStrong(results: seq<Candidate>)
    requires StrongOf(results) == []
    ensures forall s :: s in multiset(results) ==> !IsStrong(s)
  {
    forall s { CountFilter(IsStrong, results, s); }
  }

  /** Without strong candidates, the only official version match wins for a release without identity. */
  lemma OfficialsDecide(d: Deployed, results: seq<Candidate>)
    requires StrongOf(results) == [] && d.identity == {}
    ensures var officials := OfficialsOf(results);
      if |officials| == 1 then Wins(d, multiset(results), officials[0]) else forall c :: !Wins(d, multiset(results), c)
  {
    NoStrong(results);
    var officials := OfficialsOf(results);
    forall c ensures multiset(officials)[c] == if IsOfficialVersionMatch(c) then multiset(results)[c] else 0
             ensures c in officials <==> IsOfficialVersionMatch(c) && c in multiset(results) {
      CountFilter(IsOfficialVersionMatch, results, c);
    }
    if |officials| == 1 {
      SoleElement(officials, officials[0]);
    } else {
      forall c ensures !OnlyOfficial(multiset(results), c) {
        if OnlyOfficial(multiset(results), c) {
          assert c in officials;
          var i :| 0 <= i < |officials| && officials[i] == c;
          var j := if i == 0 then 1 else 0;
          assert officials[j] in officials;
          OtherPlace(officials, c, i, j);
        }
      }
    }
  }

  method Decide(d: Deployed, results: seq<Candidate>) returns (r: Option<HubPackage>)
    ensures r == Winner(d, multiset(results))
    ensures r.Some? ==> exists c :: Wins(d, multiset(results), c) && r.value == c.pkg
    ensures r.None? ==> forall c :: !Wins(d, multiset(results), c)
  {
    var strong, weak := [], [];
    var i := 0;
    while i < |results|
      invariant 0 <= i <= |results|
      invariant strong == StrongOf(results[..i])
      invariant weak == Filter(IsWeak, results[..i])
    {
      FilterStep(IsStrong, results, i);
      FilterStep(IsWeak, results, i);
      match results[i].level {
        case StrongMatch => strong := strong + [results[i]];
        case VersionMatch => weak := weak + [results[i]];
        case NoMatch =>
      }
      i := i + 1;
    }
    assert results[..i] == results;
    if |strong| == 1 {
      SoleStrongWins(d, results, strong[0]);
      WinnerIs(d, results, strong[0]);
      return Some(strong[0].pkg);
    }
    if |strong| > 1 {
      ByCandidateTrustPreorder();
      strong := SortSlice(strong, (a: Candidate, b: Candidate) => LessTrusted(b.pkg, a.pkg), ByCandidateTrust());
      StablePermutes(ByCandidateTrust(), StrongOf(results), strong);
      RankedHead(d, results, strong);
      if TrustKey(strong[0].pkg) != TrustKey(strong[1].pkg) {
        WinnerIs(d, results, strong[0]);
        return Some(strong[0].pkg);
      }
      return None;
    }
    NoStrong(results);
    if |d.identity| > 0 { return None; }
    var officials := [];
    i := 0;
    while i < |weak|
      invariant 0 <= i <= |weak|
      invariant officials == OfficialsOf(weak[..i])
    {
      FilterStep(IsOfficialVersionMatch, weak, i);
      FilterMembers(IsWeak, results);
      assert weak[i] in weak;
      if Official(weak[i].pkg) {
        officials := officials + [weak[i]];
      }
      i := i + 1;
    }
    assert weak[..i] == weak;
    FilterNested(IsOfficialVersionMatch, IsWeak, results);
    OfficialsDecide(d, results);
    if |officials| == 1 {
      WinnerIs(d, results, officials[0]);
      return Some(officials[0].pkg);
    }
    r := None;
  }

  // ----- What a decision means once the grades come from Verify -----

  /** Every candidate carries the grade of some index, and none was graded a non-match. */
  ghost predicate Graded(up: Client, d: Deployed, results: multiset<Candidate>) {
    forall c :: c in results ==> c.level != NoMatch && exists entries :: c.level == Grade(up, d, entries)
  }

  /** Without identity URLs nothing can be graded a strong match. */
  lemma StrongNeedsIdentity(up: Client, d: Deployed, results: multiset<Candidate>, c: Candidate)
    requires Graded(up, d, results) && c in results && IsStrong(c)
    ensures d.identity != {}
  {
  }

  /**
   A release that declares identity URLs is resolved only to a strong match, and one that
   declares none only to the one official version match.
   */
  lemma WinnerEarned(up: Client, d: Deployed, results: multiset<Candidate>, c: Candidate)
    requires Graded(up, d, results)
    ensures Wins(d, results, c) <==>
      if d.identity != {} then Dominates(results, c) else OnlyOfficial(results, c)
  {
    if s :| s in results && IsStrong(s) {
      StrongNeedsIdentity(up, d, results, s);
    } else {
      assert Dominates(results, c) ==> c in results;
    }
  }

  lemma DominatesWithMore(results: multiset<Candidate>, w: Candidate, x: Candidate, c: Candidate)
    requires Dominates(results, w) && Dominates(results + multiset{x}, c)
    ensures c == w || (c == x && IsStrong(x) && LessTrusted(w.pkg, x.pkg))
  {
    assert w in results + multiset{x};
    assert c in results || c == x;
  }

  lemma OnlyOfficialWithMore(results: multiset<Candidate>, w: Candidate, x: Candidate, c: Candidate)
    requires OnlyOfficial(results, w) && OnlyOfficial(results + multiset{x}, c)
    ensures c == w
  {
    assert w in results + multiset{x};
  }

  /**
   One more verified candidate never hands a resolved release to a third one: the winner
   stays, nobody wins, or the new candidate wins with a strictly greater trust key.
   */
  lemma AddingACandidate(up: Client, d: Deployed, results: multiset<Candidate>, w: Candidate, x: Candidate,
                         c: Candidate)
    requires Graded(up, d, results + multiset{x})
    requires Wins(d, results, w) && Wins(d, results + multiset{x}, c)
    ensures c == w || (c == x && IsStrong(x) && LessTrusted(w.pkg, x.pkg))
  {
    var more := results + multiset{x};
    assert Graded(up, d, results) by { forall s | s in results ensures s in more {} }
    WinnerEarned(up, d, results, w);
    WinnerEarned(up, d, more, c);
    if d.identity != {} {
      DominatesWithMore(results, w, x, c);
    } else {
      OnlyOfficialWithMore(results, w, x, c);
    }
  }

  // ----- Resolving a release -----

  /** The graded, matching candidates among those whose index could be read. */
  function GradedCandidates(up: Client, d: Deployed, kept: seq<HubPackage>): seq<Candidate> {
    if kept == [] then []
    else
      var earlier := GradedCandidates(up, d, kept[..|kept| - 1]);
      var p := kept[|kept| - 1];
      match up.chartVersions(p.repository.url, d.name)
      case None => earlier
      case Some(entries) =>
        if Grade(up, d, entries) == NoMatch then earlier else earlier + [Candidate(p, Grade(up, d, entries))]
  }

  /** The package a listing resolves the release to. */
  ghost function Chosen(up: Client, d: Deployed, packages: seq<HubPackage>): Option<HubPackage> {
    Winner(d, multiset(GradedCandidates(up, d, Shortlisted(up, d.name, packages))))
  }

  ghost function ResolvedUrl(up: Client, d: Deployed): Option<string> {
    if d.chartVersion == "" then None
    else match up.searchCharts(d.name)
      case None => None
      case Some(packages) =>
        match Chosen(up, d, packages)
        case None => None
        case Some(p) =>
          if up.egressAllowed(TrimSlash(p.repository.url)) then Some(TrimSlash(p.repository.url)) else None
  }

  method ResolveHelm(up: Client, d: Deployed) returns (r: Option<string>)
    ensures r == ResolvedUrl(up, d)
  {
    if d.chartVersion == "" { return None; }
    var packages := up.searchCharts(d.name);
    if packages.None? { return None; }
    var kept := Shortlist(up, d.name, packages.value);
    var results := [];
    var i := 0;
    while i < |kept|
      invariant 0 <= i <= |kept|
      invariant results == GradedCandidates(up, d, kept[..i])
    {
      var p := kept[i];
      assert kept[..i + 1][..i] == kept[..i];
      i := i + 1;
      var entries := up.chartVersions(p.repository.url, d.name);
      if entries.None? { continue; }
      var level := Verify(up, d, entries.value);
      if level != NoMatch {
        results := results + [Candidate(p, level)];
      }
    }
    assert kept[..i] == kept;
    var winner := Decide(d, results);
    if winner.None? { return None; }
    var repoUrl := TrimSlash(winner.value.repository.url);
    if !up.egressAllowed(repoUrl) { return None; }
    r := Some(repoUrl);
  }

  /** c was shortlisted, its index was read, and this is the index's grade. */
  ghost predicate Examined(up: Client, d: Deployed, kept: seq<HubPackage>, c: Candidate) {
    && c.pkg in kept && c.level != NoMatch
    && up.chartVersions(c.pkg.repository.url, d.name).Some?
    && c.level == Grade(up, d, up.chartVersions(c.pkg.repository.url, d.name).value)
  }

  lemma {:induction false} CandidatesExamined(up: Client, d: Deployed, kept: seq<HubPackage>)
    ensures forall c :: c in GradedCandidates(up, d, kept) ==> Examined(up, d, kept, c)
  {
    if kept != [] {
      var front := kept[..|kept| - 1];
      CandidatesExamined(up, d, front);
      forall c | c in GradedCandidates(up, d, kept) ensures Examined(up, d, kept, c) {
        assert c in GradedCandidates(up, d, front) ==> Examined(up, d, front, c);
        assert kept[|kept| - 1] in kept;
      }
    }
  }

  lemma CandidatesGraded(up: Client, d: Deployed, kept: seq<HubPackage>)
    ensures Graded(up, d, multiset(GradedCandidates(up, d, kept)))
  {
    CandidatesExamined(up, d, kept);
    var results := GradedCandidates(up, d, kept);
    forall c: Candidate | c in multiset(results)
      ensures c.level != NoMatch && exists entries :: c.level == Grade(up, d, entries)
    {
      assert c in results && Examined(up, d, kept, c);
    }
  }

  ghost predicate Earned(up: Client, d: Deployed, packages: seq<HubPackage>, c: Candidate) {
    && c.pkg in packages && Eligible(up, d.name, c.pkg)
    && up.chartVersions(c.pkg.repository.url, d.name).Some?
    && c.level == Grade(up, d, up.chartVersions(c.pkg.repository.url, d.name).value)
    && (if d.identity != {} then IsStrong(c) else IsOfficialVersionMatch(c))
  }

  lemma WinnerIsEarned(up: Client, d: Deployed, packages: seq<HubPackage>, c: Candidate)
    requires Wins(d, multiset(GradedCandidates(up, d, Shortlisted(up, d.name, packages))), c)
    ensures Earned(up, d, packages, c)
  {
    var kept := Shortlisted(up, d.name, packages);
    CandidatesGraded(up, d, kept);
    WinnerEarned(up, d, multiset(GradedCandidates(up, d, kept)), c);
    assert c in GradedCandidates(up, d, kept);
    CandidatesExamined(up, d, kept);
    ShortlistSpec(up, d.name, packages);
    assert IsFirst(up, d.name, packages, c.pkg);
  }

  /**
   A resolved URL is an allowed one, of a listed and eligible package whose own index earned
   it: by identity overlap if the release declares identity URLs, else by being official.
   */
  lemma ResolutionEarned(up: Client, d: Deployed)
    requires ResolvedUrl(up, d).Some?
    ensures up.egressAllowed(ResolvedUrl(up, d).value)
    ensures d.chartVersion != "" && up.searchCharts(d.name).Some?
    ensures exists c ::
      Earned(up, d, up.searchCharts(d.name).value, c)
      && ResolvedUrl(up, d).value == TrimSlash(c.pkg.repository.url)
  {
    var packages := up.searchCharts(d.name).value;
    var results := multiset(GradedCandidates(up, d, Shortlisted(up, d.name, packages)));
    var c :| Wins(d, results, c) && Winner(d, results) == Some(c.pkg);
    WinnerIsEarned(up, d, packages, c);
  }
}
