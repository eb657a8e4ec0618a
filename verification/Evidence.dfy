/**
 What a resolved chart repository rests on, in terms of the release's own streams and links, the listing and the
 indexes: which packages are examined, what their indexes have to say, and who is resolved to.
 */
module Evidence {
  import opened Wrappers
  import opened Api
  import opened Orders
  import opened Upstream
  import Helm
  import Semver
  import Precedence

  // ----- The release -----

  ghost predicate FirstAt(streams: seq<VersionStream>, kind: VersionKind, value: string, i: int) {
    && 0 <= i < |streams| && streams[i].kind == kind && streams[i].current == value
    && forall j :: 0 <= j < i && streams[j].kind == kind ==> streams[j].current == ""
  }

  /** The first non-empty current value among the streams of the kind, or "" if there is none. */
  ghost predicate Deploys(streams: seq<VersionStream>, kind: VersionKind, value: string) {
    if value == "" then forall s :: s in streams && s.kind == kind ==> s.current == ""
    else exists i :: FirstAt(streams, kind, value, i)
  }

  lemma DeploysLonger(front: seq<VersionStream>, last: VersionStream, kind: VersionKind, value: string)
    requires Deploys(front, kind, value)
    ensures value != "" ==> Deploys(front + [last], kind, value)
    ensures value == "" ==> Deploys(front + [last], kind, if last.kind == kind then last.current else "")
  {
    var streams := front + [last];
    if value != "" {
      var i :| FirstAt(front, kind, value, i);
      assert FirstAt(streams, kind, value, i);
    } else {
      forall j | 0 <= j < |front| && streams[j].kind == kind ensures streams[j].current == "" {
        assert front[j] in front && streams[j] == front[j];
      }
      assert last.kind == kind ==> FirstAt(streams, kind, last.current, |front|);
    }
  }

  lemma {:induction false} FirstValueMeans(streams: seq<VersionStream>, kind: VersionKind)
    ensures Deploys(streams, kind, Helm.FirstValue(streams, kind))
  {
    if streams != [] {
      var front, last := streams[..|streams| - 1], streams[|streams| - 1];
      assert streams == front + [last];
      FirstValueMeans(front, kind);
      DeploysLonger(front, last, kind, Helm.FirstValue(front, kind));
    }
  }

  lemma DeploysOne(streams: seq<VersionStream>, kind: VersionKind, v: string, w: string)
    requires Deploys(streams, kind, v) && Deploys(streams, kind, w)
    ensures v == w
  {
    if v != "" && w != "" {
      var i :| FirstAt(streams, kind, v, i);
      var k :| FirstAt(streams, kind, w, k);
      assert i == k;
    }
  }

  predicate Links(up: Client, l: Link, url: string) {
    (l.kind == HomepageLink || l.kind == SourceLink) && Helm.CanonicalUrl(up, l.url) == Some(url)
  }

  /** One of the release's home page or source links is this URL, in canonical form. */
  ghost predicate Declares(up: Client, r: Resource, url: string) {
    exists l :: l in r.links && Links(up, l, url)
  }

  ghost predicate DeclaresSome(up: Client, r: Resource) { exists url :: Declares(up, r, url) }

  // ----- An index -----

  /** The entry's home or one of its sources is this URL, in canonical form. */
  ghost predicate Offers(up: Client, entry: ChartVersion, url: string) {
    Helm.CanonicalUrl(up, entry.home) == Some(url)
    || exists s :: s in entry.sources && Helm.CanonicalUrl(up, s) == Some(url)
  }

  ghost predicate OffersSome(up: Client, entry: ChartVersion) { exists url :: Offers(up, entry, url) }

  /** Where both are told they are the same. */
  predicate Agree(v: string, w: string) { v == "" || w == "" || v == w }

  /** The first entry of the deployed chart version agrees with the deployed app version, where both tell theirs. */
  ghost predicate Carries(r: Resource, entries: seq<ChartVersion>, i: int) {
    && 0 <= i < |entries| && Deploys(r.streams, KindChart, entries[i].version)
    && (forall j :: 0 <= j < i ==> entries[j].version != entries[i].version)
    && (exists app :: Deploys(r.streams, KindApp, app) && Agree(app, entries[i].appVersion))
  }

  /** It carries the release, and they have an identity URL in common. */
  ghost predicate Proves(up: Client, r: Resource, entries: seq<ChartVersion>) {
    exists i :: Carries(r, entries, i) && exists url :: Declares(up, r, url) && Offers(up, entries[i], url)
  }

  /** It carries the release, and one of them tells no identity URL. */
  ghost predicate Matches(up: Client, r: Resource, entries: seq<ChartVersion>) {
    exists i :: Carries(r, entries, i) && !(DeclaresSome(up, r) && OffersSome(up, entries[i]))
  }

  lemma IdentityMeans(up: Client, r: Resource)
    ensures forall url :: url in Helm.DeployedOf(up, r).identity <==> Declares(up, r, url)
    ensures Helm.DeployedOf(up, r).identity != {} <==> DeclaresSome(up, r)
  {
    var identity := Helm.DeployedOf(up, r).identity;
    forall url ensures url in identity <==> Declares(up, r, url) {
      if l :| l in r.links && Links(up, l, url) {
        assert Helm.IsIdentityLink(up, l);
      }
    }
    if url :| url in identity { assert Declares(up, r, url); }
  }

  lemma RemoteMeans(up: Client, entry: ChartVersion)
    ensures forall url :: url in Helm.RemoteOf(up, entry) <==> Offers(up, entry, url)
    ensures Helm.RemoteOf(up, entry) != {} <==> OffersSome(up, entry)
  {
    var remote, urls := Helm.RemoteOf(up, entry), [entry.home] + entry.sources;
    forall url ensures url in remote <==> Offers(up, entry, url) {
      assert entry.home in urls;
      if s :| s in urls && Helm.CanonicalUrl(up, s) == Some(url) {
        assert s == entry.home || s in entry.sources;
      }
    }
    if url :| url in remote { assert Offers(up, entry, url); }
  }

  lemma CarriesFirst(up: Client, r: Resource, entries: seq<ChartVersion>, i: int)
    ensures var d := Helm.DeployedOf(up, r);
      Carries(r, entries, i) <==>
        && i == Helm.FirstEntry(entries, d.chartVersion) && i < |entries|
        && Agree(d.appVersion, entries[i].appVersion)
  {
    var d := Helm.DeployedOf(up, r);
    FirstValueMeans(r.streams, KindChart);
    FirstValueMeans(r.streams, KindApp);
    if Carries(r, entries, i) {
      DeploysOne(r.streams, KindChart, entries[i].version, d.chartVersion);
      var app :| Deploys(r.streams, KindApp, app) && Agree(app, entries[i].appVersion);
      DeploysOne(r.streams, KindApp, app, d.appVersion);
    }
  }

  /** An index is graded a strong match exactly if it proves the release, a version match exactly if it matches it. */
  lemma GradeMeans(up: Client, r: Resource, entries: seq<ChartVersion>)
    ensures var grade := Helm.Grade(up, Helm.DeployedOf(up, r), entries);
      && (grade == Helm.StrongMatch <==> Proves(up, r, entries))
      && (grade == Helm.VersionMatch <==> Matches(up, r, entries))
  {
    var d := Helm.DeployedOf(up, r);
    var i := Helm.FirstEntry(entries, d.chartVersion);
    forall j { CarriesFirst(up, r, entries, j); }
    if i < |entries| {
      IdentityMeans(up, r);
      RemoteMeans(up, entries[i]);
      var common := d.identity * Helm.RemoteOf(up, entries[i]);
      if url :| Declares(up, r, url) && Offers(up, entries[i], url) { assert url in common; }
      if url :| url in common { assert Declares(up, r, url) && Offers(up, entries[i], url); }
    }
  }

  // ----- Who is examined -----

  predicate IsOfficial(p: HubPackage) { p.official || p.repository.official }

  /** Official packages first, then those of verified publishers, then those more organisations run in production. */
  predicate MoreTrusted(p: HubPackage, q: HubPackage) {
    if IsOfficial(p) != IsOfficial(q) then IsOfficial(p)
    else if p.repository.verifiedPublisher != q.repository.verifiedPublisher then p.repository.verifiedPublisher
    else p.productionOrganizations > q.productionOrganizations
  }

  /** More trusted, or as trusted with a smaller repository URL. */
  ghost predicate Precedes(p: HubPackage, q: HubPackage) {
    MoreTrusted(p, q) || (!MoreTrusted(q, p) && Precedence.StringAbove(q.repository.url, p.repository.url))
  }

  lemma TrustMeans(p: HubPackage, q: HubPackage)
    ensures Helm.LessTrusted(p, q) <==> MoreTrusted(q, p)
    ensures Helm.RanksBefore(p, q) <==> Precedes(p, q)
  {
    Precedence.StringMeans(q.repository.url, p.repository.url);
    Semver.CompareStringLinear();
    var c := Semver.CompareString;
    assert c(q.repository.url, p.repository.url) == -c(p.repository.url, q.repository.url);
  }

  /** A helm chart of the release's name from a web repository that may be fetched. */
  ghost predicate Usable(up: Client, name: string, p: HubPackage) {
    && p.repository.kind == 0 && up.equalFold(p.normalizedName, name)
    && Helm.CanonicalUrl(up, p.repository.url).Some? && up.egressAllowed(p.repository.url)
  }

  /** It is usable, and no usable one is listed before it for the same repository. */
  ghost predicate Represents(up: Client, name: string, packages: seq<HubPackage>, p: HubPackage) {
    exists i :: 0 <= i < |packages| && packages[i] == p && Usable(up, name, p) &&
      forall j :: 0 <= j < i && Usable(up, name, packages[j]) ==>
        Helm.CanonicalUrl(up, packages[j].repository.url) != Helm.CanonicalUrl(up, p.repository.url)
  }

  /** Those that are considered before p. */
  ghost function Ahead(up: Client, name: string, packages: seq<HubPackage>, p: HubPackage): set<HubPackage> {
    set q | q in packages && Represents(up, name, packages, q) && Precedes(q, p)
  }

  /** It represents its repository, and fewer than five others are considered before it. */
  ghost predicate IsExamined(up: Client, name: string, packages: seq<HubPackage>, p: HubPackage) {
    Represents(up, name, packages, p) && |Ahead(up, name, packages, p)| < 5
  }

  lemma RepresentsMeans(up: Client, name: string, packages: seq<HubPackage>, p: HubPackage)
    ensures Represents(up, name, packages, p) <==> p in Helm.Representatives(up, name, packages)
  {
    Helm.RepresentativesCover(up, name, packages);
    var reps := Helm.Representatives(up, name, packages);
    if Represents(up, name, packages, p) {
      var i :| 0 <= i < |packages| && packages[i] == p && Usable(up, name, p) &&
        forall j :: 0 <= j < i && Usable(up, name, packages[j]) ==>
          Helm.CanonicalUrl(up, packages[j].repository.url) != Helm.CanonicalUrl(up, p.repository.url);
      assert p in packages && Helm.Eligible(up, name, p);
      assert Helm.Represented(up, name, packages, reps, p);
      var q :| q in reps && Helm.SameRepository(up, q, p) && Helm.IsFirst(up, name, packages, q);
      var k :| 0 <= k < |packages| && packages[k] == q && Helm.Eligible(up, name, q) &&
        forall j :: 0 <= j < k ==>
          !(Helm.Eligible(up, name, packages[j]) && Helm.SameRepository(up, packages[j], q));
      assert i == k;
    }
    if p in reps {
      assert Helm.IsFirst(up, name, packages, p);
      var k :| 0 <= k < |packages| && packages[k] == p && Helm.Eligible(up, name, p) &&
        forall j :: 0 <= j < k ==>
          !(Helm.Eligible(up, name, packages[j]) && Helm.SameRepository(up, packages[j], p));
      assert Usable(up, name, p);
    }
  }

  function Members(s: seq<HubPackage>): set<HubPackage> { set q | q in s }

  lemma {:induction false} DistinctCount(s: seq<HubPackage>)
    requires forall i, j :: 0 <= i < j < |s| ==> s[i] != s[j]
    ensures |Members(s)| == |s|
  {
    if s != [] {
      var front, last := s[..|s| - 1], s[|s| - 1];
      DistinctCount(front);
      assert s == front + [last];
      assert Members(s) == Members(front) + {last} && last !in front;
    }
  }

  /** In a strict ranking, those ahead are those at the places before. */
  lemma AheadIsFront(ranked: seq<HubPackage>, n: nat)
    requires n < |ranked| && forall i, j :: 0 <= i < j < |ranked| ==> Precedes(ranked[i], ranked[j])
    requires forall p, q :: Precedes(p, q) ==> !Precedes(q, p)
    ensures forall q :: q in ranked && Precedes(q, ranked[n]) <==> q in Members(ranked[..n])
  {
    forall q ensures q in ranked && Precedes(q, ranked[n]) <==> q in ranked[..n] {
      if q in ranked && Precedes(q, ranked[n]) {
        var k :| 0 <= k < |ranked| && ranked[k] == q;
        assert ranked[..n][k] == q;
      }
    }
  }

  lemma PrecedesStrict()
    ensures forall p, q :: Precedes(p, q) <==> Helm.RanksBefore(p, q)
    ensures forall p, q :: Precedes(p, q) ==> !Precedes(q, p)
  {
    Helm.ByRankPreorder();
    forall p, q ensures Precedes(p, q) <==> Helm.RanksBefore(p, q) { TrustMeans(p, q); }
    assert forall p, q :: Helm.RanksBefore(p, q) <==> !Helm.ByRank(q, p);
  }

  lemma PlaceInCutoff(ranked: seq<HubPackage>, n: nat)
    requires n < |ranked| && forall i, j :: 0 <= i < j < |ranked| ==> ranked[i] != ranked[j]
    ensures ranked[n] in Helm.Cutoff(ranked) <==> n < 5
  {
    if n < 5 { assert Helm.Cutoff(ranked)[n] == ranked[n]; }
  }

  lemma PlaceCounts(up: Client, name: string, packages: seq<HubPackage>, ranked: seq<HubPackage>, n: nat)
    requires n < |ranked| && forall i, j :: 0 <= i < j < |ranked| ==> Precedes(ranked[i], ranked[j])
    requires forall p, q :: Precedes(p, q) ==> !Precedes(q, p)
    requires forall q :: q in ranked <==> q in Helm.Representatives(up, name, packages)
    ensures |Ahead(up, name, packages, ranked[n])| == n
    ensures forall i, j :: 0 <= i < j < |ranked| ==> ranked[i] != ranked[j]
  {
    AheadIsFront(ranked, n);
    forall i, j | 0 <= i < j < |ranked| ensures ranked[i] != ranked[j] { assert Precedes(ranked[i], ranked[j]); }
    DistinctCount(ranked[..n]);
    forall q ensures q in Ahead(up, name, packages, ranked[n]) <==> q in Members(ranked[..n]) {
      RepresentsMeans(up, name, packages, q);
      if q in ranked { assert Represents(up, name, packages, q) && q in packages; }
    }
    assert Ahead(up, name, packages, ranked[n]) == Members(ranked[..n]);
  }

  /** The shortlist is exactly the packages that are examined. */
  lemma ExaminedMeans(up: Client, name: string, packages: seq<HubPackage>, p: HubPackage)
    ensures p in Helm.Shortlisted(up, name, packages) <==> IsExamined(up, name, packages, p)
  {
    var reps := Helm.Representatives(up, name, packages);
    Helm.ByRankPreorder();
    Helm.RepresentativesCover(up, name, packages);
    var ranked := Arrange(Helm.ByRank, reps);
    StablePermutes(Helm.ByRank, reps, ranked);
    Helm.RankedStrictly(up, reps, ranked);
    PrecedesStrict();
    RepresentsMeans(up, name, packages, p);
    if p in ranked {
      var n :| 0 <= n < |ranked| && ranked[n] == p;
      PlaceCounts(up, name, packages, ranked, n);
      assert p in Helm.Cutoff(ranked) <==> n < 5 by { PlaceInCutoff(ranked, n); }
    }
  }

  // ----- Who is resolved to -----

  /** What the index of the package says about a release. */
  ghost predicate IndexProves(up: Client, r: Resource, p: HubPackage) {
    var index := up.chartVersions(p.repository.url, r.upstream.name);
    index.Some? && Proves(up, r, index.value)
  }

  ghost predicate IndexMatches(up: Client, r: Resource, p: HubPackage) {
    var index := up.chartVersions(p.repository.url, r.upstream.name);
    index.Some? && Matches(up, r, index.value)
  }

  /** Among the examined, p alone has what it takes. */
  ghost predicate Prevails(up: Client, r: Resource, packages: seq<HubPackage>, p: HubPackage) {
    && IsExamined(up, r.upstream.name, packages, p)
    && if DeclaresSome(up, r) then
         && IndexProves(up, r, p)
         && forall q :: IsExamined(up, r.upstream.name, packages, q) && IndexProves(up, r, q) && q != p ==>
           MoreTrusted(p, q)
       else
         && IsOfficial(p) && IndexMatches(up, r, p)
         && forall q :: IsExamined(up, r.upstream.name, packages, q) && IsOfficial(q) && IndexMatches(up, r, q) ==>
           q == p
  }

  lemma {:induction false} CandidatesAre(up: Client, d: Helm.Deployed, kept: seq<HubPackage>, c: Helm.Candidate)
    requires forall i, j :: 0 <= i < j < |kept| ==> kept[i] != kept[j]
    ensures multiset(Helm.GradedCandidates(up, d, kept))[c] == if Helm.Examined(up, d, kept, c) then 1 else 0
  {
    if kept != [] {
      var front, last := kept[..|kept| - 1], kept[|kept| - 1];
      assert kept == front + [last] && last !in front;
      CandidatesAre(up, d, front, c);
    }
  }

  /** The candidates that decide() gets. */
  ghost function Results(up: Client, r: Resource, packages: seq<HubPackage>): multiset<Helm.Candidate> {
    multiset(Helm.GradedCandidates(up, Helm.DeployedOf(up, r), Helm.Shortlisted(up, r.upstream.name, packages)))
  }

  lemma ResultsMean(up: Client, r: Resource, packages: seq<HubPackage>, q: HubPackage)
    ensures var results, examined := Results(up, r, packages), IsExamined(up, r.upstream.name, packages, q);
      && results[Helm.Candidate(q, Helm.StrongMatch)] == (if examined && IndexProves(up, r, q) then 1 else 0)
      && results[Helm.Candidate(q, Helm.VersionMatch)] == (if examined && IndexMatches(up, r, q) then 1 else 0)
  {
    var d, kept := Helm.DeployedOf(up, r), Helm.Shortlisted(up, r.upstream.name, packages);
    Helm.ShortlistSpec(up, r.upstream.name, packages);
    forall i, j | 0 <= i < j < |kept| ensures kept[i] != kept[j] { assert !Helm.SameRepository(up, kept[i], kept[j]); }
    CandidatesAre(up, d, kept, Helm.Candidate(q, Helm.StrongMatch));
    CandidatesAre(up, d, kept, Helm.Candidate(q, Helm.VersionMatch));
    ExaminedMeans(up, r.upstream.name, packages, q);
    var index := up.chartVersions(q.repository.url, d.name);
    if index.Some? { GradeMeans(up, r, index.value); }
  }

  lemma WinsMeans(up: Client, r: Resource, packages: seq<HubPackage>, p: HubPackage)
    ensures var level := if DeclaresSome(up, r) then Helm.StrongMatch else Helm.VersionMatch;
      Prevails(up, r, packages, p) <==>
      Helm.Wins(Helm.DeployedOf(up, r), Results(up, r, packages), Helm.Candidate(p, level))
  {
    var d, results := Helm.DeployedOf(up, r), Results(up, r, packages);
    var level := if DeclaresSome(up, r) then Helm.StrongMatch else Helm.VersionMatch;
    var c := Helm.Candidate(p, level);
    Helm.CandidatesGraded(up, d, Helm.Shortlisted(up, r.upstream.name, packages));
    Helm.WinnerEarned(up, d, results, c);
    IdentityMeans(up, r);
    ResultsMean(up, r, packages, p);
    forall q
      ensures Helm.Candidate(q, Helm.StrongMatch) in results <==>
        IsExamined(up, r.upstream.name, packages, q) && IndexProves(up, r, q)
      ensures Helm.Candidate(q, Helm.VersionMatch) in results <==>
        IsExamined(up, r.upstream.name, packages, q) && IndexMatches(up, r, q)
      ensures Helm.LessTrusted(q, p) <==> MoreTrusted(p, q)
    {
      ResultsMean(up, r, packages, q);
      TrustMeans(q, p);
    }
    if Prevails(up, r, packages, p) {
      if DeclaresSome(up, r) {
        forall s | s in results && Helm.IsStrong(s) && s != c ensures Helm.LessTrusted(s.pkg, c.pkg) {
          assert s == Helm.Candidate(s.pkg, Helm.StrongMatch);
        }
      } else {
        forall s | s in results && Helm.IsOfficialVersionMatch(s) ensures s == c {
          assert s == Helm.Candidate(s.pkg, Helm.VersionMatch);
        }
      }
    }
    if Helm.Wins(d, results, c) {
      forall q | IsExamined(up, r.upstream.name, packages, q)
        ensures DeclaresSome(up, r) && IndexProves(up, r, q) && q != p ==> MoreTrusted(p, q)
        ensures !DeclaresSome(up, r) && IsOfficial(q) && IndexMatches(up, r, q) ==> q == p
      {
        assert Helm.Candidate(q, level) in results && q != p ==> Helm.Candidate(q, level) != c;
      }
    }
  }

  /** A package is chosen exactly if it prevails. */
  lemma ChosenMeans(up: Client, r: Resource, packages: seq<HubPackage>, p: HubPackage)
    ensures Helm.Chosen(up, Helm.DeployedOf(up, r), packages) == Some(p) <==> Prevails(up, r, packages, p)
  {
    var d, results := Helm.DeployedOf(up, r), Results(up, r, packages);
    var level := if DeclaresSome(up, r) then Helm.StrongMatch else Helm.VersionMatch;
    WinsMeans(up, r, packages, p);
    if Prevails(up, r, packages, p) {
      forall a | Helm.Wins(d, results, a) ensures a.pkg == p {
        Helm.WinnerUnique(d, results, a, Helm.Candidate(p, level));
      }
    }
    if Helm.Chosen(up, d, packages) == Some(p) {
      var c :| Helm.Wins(d, results, c) && c.pkg == p;
      Helm.CandidatesGraded(up, d, Helm.Shortlisted(up, r.upstream.name, packages));
      Helm.WinnerEarned(up, d, results, c);
      IdentityMeans(up, r);
      assert c == Helm.Candidate(p, level);
    }
  }

  /** The text without a slash at its end. */
  predicate Stripped(raw: string, url: string) {
    raw == url + "/" || (raw == url && (raw == "" || raw[|raw| - 1] != '/'))
  }

  lemma StrippedOnce(raw: string, url: string)
    ensures Stripped(raw, url) <==> url == Helm.TrimSlash(raw)
  {
    if raw != "" && raw[|raw| - 1] == '/' { assert raw == raw[..|raw| - 1] + "/"; }
  }

  /**
   A release is resolved to a repository exactly if it has a chart version, the search answers, a listed package
   prevails, and the guard admits its repository URL.
   */
  lemma ResolutionMeans(up: Client, r: Resource, url: string)
    ensures Helm.ResolvedUrl(up, Helm.DeployedOf(up, r)) == Some(url) <==>
      && !Deploys(r.streams, KindChart, "") && up.searchCharts(r.upstream.name).Some? && up.egressAllowed(url)
      && exists p :: Prevails(up, r, up.searchCharts(r.upstream.name).value, p) && Stripped(p.repository.url, url)
  {
    var d := Helm.DeployedOf(up, r);
    FirstValueMeans(r.streams, KindChart);
    if Deploys(r.streams, KindChart, "") { DeploysOne(r.streams, KindChart, "", d.chartVersion); }
    if up.searchCharts(d.name).Some? {
      var packages := up.searchCharts(d.name).value;
      forall p { ChosenMeans(up, r, packages, p); }
      forall p: HubPackage ensures Stripped(p.repository.url, url) <==> url == Helm.TrimSlash(p.repository.url) {
        StrippedOnce(p.repository.url, url);
      }
    }
  }

  /** What a query adds to a canonical URL. */
  function QueryText(query: string): string { if query == "" then "" else "?" + query }

  lemma UntilQuery(x: string, p: string)
    requires '?' !in x
    ensures var k, text := Semver.IndexOf(x + QueryText(p), '?'), x + QueryText(p);
      text[..k] == x && p == if k == |text| then "" else text[k + 1..]
  {
    if p == "" {
      assert x + QueryText(p) == x;
    } else {
      Semver.IndexOfConcat(x, '?', p);
      assert QueryText(p) == ['?'] + p;
    }
  }

  lemma SamePrefix(h: string, a: string, b: string)
    ensures h + a == h + b <==> a == b
  {
    assert (h + a)[|h|..] == a && (h + b)[|h|..] == b;
  }

  lemma TextsApart(host: string, x: string, p: string, y: string, q: string)
    requires '?' !in x && '?' !in y
    ensures host + x + QueryText(p) == host + y + QueryText(q) <==> x == y && p == q
  {
    var a, b := x + QueryText(p), y + QueryText(q);
    assert host + x + QueryText(p) == host + a && host + y + QueryText(q) == host + b;
    SamePrefix(host, a, b);
    UntilQuery(x, p);
    UntilQuery(y, q);
  }

  /**
   Two web addresses of one host are the same exactly if their paths are, up to a final slash, and their queries;
   the scheme, the case of the host, and fragments do not matter.
   */
  lemma SamePageMeans(up: Client, a: string, b: string, u: Url, v: Url)
    requires up.parseUrl(a) == Some(u) && up.parseUrl(b) == Some(v) && up.toLower(u.host) == up.toLower(v.host)
    requires u.host != "" && v.host != "" && '?' !in u.path && '?' !in v.path
    requires u.scheme in {"http", "https"} && v.scheme in {"http", "https"}
    ensures Helm.CanonicalUrl(up, a).Some?
    ensures Helm.CanonicalUrl(up, a) == Helm.CanonicalUrl(up, b) <==>
      u.rawQuery == v.rawQuery && exists path :: Stripped(u.path, path) && Stripped(v.path, path)
  {
    var host, x, y := up.toLower(u.host), Helm.TrimSlash(u.path), Helm.TrimSlash(v.path);
    StrippedOnce(u.path, x);
    StrippedOnce(v.path, y);
    TextsApart(host, x, u.rawQuery, y, v.rawQuery);
    if path :| Stripped(u.path, path) && Stripped(v.path, path) {
      StrippedOnce(u.path, path);
      StrippedOnce(v.path, path);
    }
  }

  /** Nothing else than a web address with a host has a canonical form. */
  lemma WebAddressMeans(up: Client, raw: string)
    ensures Helm.CanonicalUrl(up, raw).Some? <==>
      up.parseUrl(raw).Some? && var u := up.parseUrl(raw).value; u.scheme in {"http", "https"} && u.host != ""
  {
  }
}
