/** internal/server/versions.go: enumerating a stream's versions. */
module Versions {
  import opened Wrappers
  import opened Api
  import opened Orders
  import opened Vers
  import opened Upstream
  import Server
  import Semver
  import Decimal
  import S = Store

  const VERSION_CACHE_TTL := 3600 * S.SECOND

  function VersionOfRelease(r: Release): Version {
    Version(r.tag, r.publishedAt, r.prerelease, false, r.htmlUrl)
  }

  function VersionOfChart(c: ChartVersion): Version {
    Version(c.version, c.created, false, c.deprecated, "")
  }

  function Map<A, B>(f: A -> B, s: seq<A>): (t: seq<B>)
    ensures |t| == |s| && forall i :: 0 <= i < |s| ==> t[i] == f(s[i])
  {
    seq(|s|, i requires 0 <= i < |s| => f(s[i]))
  }

  /** What the stream's version source lists, in the source's own order. */
  function FetchedIn(up: Option<Client>, stream: VersionStream): Result<seq<Version>, Server.RpcError> {
    if up.None? then Err(Server.FailedPrecondition)
    else match stream.source
      case None => Err(Server.FailedPrecondition)
      case Some(UnsupportedSource) => Err(Server.Unimplemented)
      case Some(GithubReleases(owner, repo)) =>
        var releases := up.value.githubReleases(owner, repo);
        if releases.None? then Err(Server.Internal) else Ok(Map(VersionOfRelease, releases.value))
      case Some(HelmRepository(url, chart)) =>
        var charts := up.value.chartVersions(url, chart);
        if charts.None? then Err(Server.Internal) else Ok(Map(VersionOfChart, charts.value))
  }

  function LastStable(versions: seq<Version>): Option<string> {
    if versions == [] then None
    else if !versions[|versions| - 1].prerelease then Some(versions[|versions| - 1].value)
    else LastStable(versions[..|versions| - 1])
  }

  /** The last stable version, else the last version at all, else "". */
  function LatestOf(versions: seq<Version>): string {
    match LastStable(versions)
    case Some(latest) => latest
    case None => if versions == [] then "" else versions[|versions| - 1].value
  }

  ghost function Sorted(fetched: seq<Version>, scheme: Scheme): (sorted: seq<Version>)
    ensures StableArrangement(ByVersion(scheme), SortableOnly(fetched, scheme), sorted)
  {
    ByVersionPreorder(scheme);
    Arrange(ByVersion(scheme), SortableOnly(fetched, scheme))
  }

  ghost function ListOf(fetched: seq<Version>, scheme: Scheme): VersionList {
    VersionList(Sorted(fetched, scheme), LatestOf(Sorted(fetched, scheme)))
  }

  function ListKeyOf(resource: Resource, stream: VersionStream): S.ListKey {
    S.ListKey(resource.upstream, stream.kind)
  }

  /** What streamVersions answers: the cached list while fresh, else the fetched one. */
  ghost function VersionsFor(db: S.Db, up: Option<Client>, resource: Resource, stream: VersionStream, now: int)
    : Result<VersionList, Server.RpcError>
  {
    var cached := S.VersionListIn(db, ListKeyOf(resource, stream), now, VERSION_CACHE_TTL);
    if cached.Some? then Ok(cached.value)
    else match FetchedIn(up, stream)
      case Err(e) => Err(e)
      case Ok(fetched) => Ok(ListOf(fetched, stream.scheme))
  }

  method FetchVersions(up: Option<Client>, stream: VersionStream) returns (r: Result<seq<Version>, Server.RpcError>)
    ensures r == FetchedIn(up, stream)
  {
    if up.None? { return Err(Server.FailedPrecondition); }
    match stream.source {
      case Some(GithubReleases(owner, repo)) =>
        var releases := up.value.githubReleases(owner, repo);
        if releases.None? { return Err(Server.Internal); }
        var versions := [];
        var i := 0;
        while i < |releases.value|
          invariant 0 <= i <= |releases.value| && |versions| == i
          invariant forall j :: 0 <= j < i ==> versions[j] == VersionOfRelease(releases.value[j])
        {
          versions := versions + [VersionOfRelease(releases.value[i])];
          i := i + 1;
        }
        assert versions == Map(VersionOfRelease, releases.value);
        r := Ok(versions);
      case Some(HelmRepository(url, chart)) =>
        var charts := up.value.chartVersions(url, chart);
        if charts.None? { return Err(Server.Internal); }
        var versions := [];
        var i := 0;
        while i < |charts.value|
          invariant 0 <= i <= |charts.value| && |versions| == i
          invariant forall j :: 0 <= j < i ==> versions[j] == VersionOfChart(charts.value[j])
        {
          versions := versions + [VersionOfChart(charts.value[i])];
          i := i + 1;
        }
        assert versions == Map(VersionOfChart, charts.value);
        r := Ok(versions);
      case Some(UnsupportedSource) => r := Err(Server.Unimplemented);
      case None => r := Err(Server.FailedPrecondition);
    }
  }

  /** Overwrites `latest` along the list; "" stands for none found, which no sortable value is. */
  method Latest(sorted: seq<Version>) returns (latest: string)
    requires forall v :: v in sorted ==> v.value != ""
    ensures latest == LatestOf(sorted)
  {
    latest := "";
    var i := 0;
    while i < |sorted|
      invariant 0 <= i <= |sorted|
      invariant latest == match LastStable(sorted[..i]) { case Some(l) => l case None => "" }
      invariant LastStable(sorted[..i]).Some? ==> latest != ""
    {
      if !sorted[i].prerelease {
        latest := sorted[i].value;
      }
      assert sorted[..i + 1][..i] == sorted[..i];
      i := i + 1;
    }
    assert sorted[..i] == sorted;
    if latest == "" && |sorted| > 0 {
      latest := sorted[|sorted| - 1].value;
    }
  }

  lemma SortableNonEmpty(scheme: Scheme)
    ensures !Sortable("", scheme)
  {
    assert TrimSpace("") == "";
    assert Canonical("", SchemeSemver).0 == "v";
    assert Semver.Parse("v").None?;
  }

  lemma SortedMembers(fetched: seq<Version>, scheme: Scheme, sorted: seq<Version>)
    requires StableArrangement(ByVersion(scheme), SortableOnly(fetched, scheme), sorted)
    ensures forall v :: v in sorted <==> v in fetched && Sortable(v.value, scheme)
    ensures forall v :: v in sorted ==> v.value != ""
  {
    ByVersionPreorder(scheme);
    StablePermutes(ByVersion(scheme), SortableOnly(fetched, scheme), sorted);
    FilterMembers((v: Version) => Sortable(v.value, scheme), fetched);
    SortableNonEmpty(scheme);
  }

  /** The answer of streamVersions. */
  ghost function StreamAnswer(db: S.Db, up: Option<Client>, resource: Resource, stream: VersionStream, env: Server.Env)
    : Result<VersionList, Server.RpcError>
  {
    if !env.served(1) then Err(Server.Internal) else VersionsFor(db, up, resource, stream, env.clock(1))
  }

  /** What it leaves in the database: a freshly fetched list is cached if the driver serves the write. */
  ghost function StreamStored(db: S.Db, up: Option<Client>, resource: Resource, stream: VersionStream, env: Server.Env)
    : S.Db
  {
    var answer, key := StreamAnswer(db, up, resource, stream, env), ListKeyOf(resource, stream);
    if answer.Err? || !env.served(2) || S.VersionListIn(db, key, env.clock(1), VERSION_CACHE_TTL).Some? then db
    else db.(versionLists := db.versionLists[key := S.ListRow(S.Unix(env.clock(2)), answer.value)])
  }

  method StreamVersions(store: S.Store, up: Option<Client>, resource: Resource, stream: VersionStream, env: Server.Env)
    returns (r: Result<VersionList, Server.RpcError>)
    modifies store
    ensures r == StreamAnswer(old(store.db), up, resource, stream, env)
    ensures store.db == StreamStored(old(store.db), up, resource, stream, env)
  {
    var cached := store.VersionList(ListKeyOf(resource, stream), env.clock(1), VERSION_CACHE_TTL, env.served(1));
    match cached
    case Ok(list) => r := Ok(list);
    case Err(e) =>
      if !e.NotFound? { return Err(Server.Internal); }
      var fetched := FetchVersions(up, stream);
      if fetched.Err? { return Err(fetched.error); }
      var sorted := SortAscending(fetched.value, stream.scheme);
      ByVersionPreorder(stream.scheme);
      ArrangeUnique(ByVersion(stream.scheme), SortableOnly(fetched.value, stream.scheme), sorted);
      SortedMembers(fetched.value, stream.scheme, sorted);
      var latest := Latest(sorted);
      r := Ok(VersionList(sorted, latest));
      var _ := store.PutVersionList(ListKeyOf(resource, stream), VersionList(sorted, latest), env.clock(2),
        env.served(2));
  }

  datatype Listing = Listing(current: string, latest: string, versions: seq<Version>, behind: nat)

  predicate AtLeast(v: string, current: string, scheme: Scheme) {
    CompareOK(v, current, scheme).Some? && CompareOK(v, current, scheme).value >= 0
  }

  predicate Above(v: string, current: string, scheme: Scheme) {
    CompareOK(v, current, scheme).Some? && CompareOK(v, current, scheme).value > 0
  }

  function IsNotBefore(current: string, scheme: Scheme): Version -> bool {
    (v: Version) => AtLeast(v.value, current, scheme)
  }

  function IsStableAbove(current: string, scheme: Scheme): Version -> bool {
    (v: Version) => !v.prerelease && Above(v.value, current, scheme)
  }

  function NotBefore(versions: seq<Version>, current: string, scheme: Scheme): seq<Version> {
    Filter(IsNotBefore(current, scheme), versions)
  }

  function StableAbove(versions: seq<Version>, current: string, scheme: Scheme): seq<Version> {
    Filter(IsStableAbove(current, scheme), versions)
  }

  function ListingOf(list: VersionList, current: string, scheme: Scheme): Listing {
    Listing(current, list.latest, NotBefore(list.versions, current, scheme),
      |StableAbove(list.versions, current, scheme)|)
  }

  lemma SelectStep(versions: seq<Version>, i: nat, current: string, scheme: Scheme, cmp: Option<int>)
    requires i < |versions| && cmp == CompareOK(versions[i].value, current, scheme)
    ensures NotBefore(versions[..i + 1], current, scheme) ==
      NotBefore(versions[..i], current, scheme) + (if cmp.Some? && cmp.value >= 0 then [versions[i]] else [])
    ensures |StableAbove(versions[..i + 1], current, scheme)| ==
      |StableAbove(versions[..i], current, scheme)| +
        (if cmp.Some? && cmp.value > 0 && !versions[i].prerelease then 1 else 0)
  {
    FilterStep(IsNotBefore(current, scheme), versions, i);
    FilterStep(IsStableAbove(current, scheme), versions, i);
  }

  method SelectListing(list: VersionList, current: string, scheme: Scheme) returns (res: Listing)
    ensures res == ListingOf(list, current, scheme)
  {
    var versions, behind := [], 0;
    var i := 0;
    while i < |list.versions|
      invariant 0 <= i <= |list.versions|
      invariant versions == NotBefore(list.versions[..i], current, scheme)
      invariant behind == |StableAbove(list.versions[..i], current, scheme)|
    {
      var v := list.versions[i];
      var cmp := CompareOK(v.value, current, scheme);
      SelectStep(list.versions, i, current, scheme, cmp);
      if cmp.Some? && cmp.value >= 0 {
        versions := versions + [v];
        if cmp.value > 0 && !v.prerelease {
          behind := behind + 1;
        }
      }
      i := i + 1;
    }
    assert list.versions[..i] == list.versions;
    res := Listing(current, list.latest, versions, behind);
  }

  /** The whole RPC: its answer, and the database it leaves. */
  ghost function Listed(db: S.Db, up: Option<Client>, ref: ResourceRef, streamId: string, env: Server.Env)
    : (Result<Listing, Server.RpcError>, S.Db)
  {
    if !env.served(0) then (Err(Server.Internal), db)
    else match Server.StreamIn(Server.CachedScanIn(db), ref, streamId)
      case Err(e) => (Err(e), db)
      case Ok((resource, stream)) =>
        (match StreamAnswer(db, up, resource, stream, env)
         case Err(e) => Err(e)
         case Ok(list) => Ok(ListingOf(list, stream.current, stream.scheme)),
         StreamStored(db, up, resource, stream, env))
  }

  method ListVersions(store: S.Store, up: Option<Client>, ref: ResourceRef, streamId: string, env: Server.Env)
    returns (r: Result<Listing, Server.RpcError>)
    modifies store
    ensures (r, store.db) == Listed(old(store.db), up, ref, streamId, env)
  {
    var found := Server.ResourceStream(store, ref, streamId, env.served(0));
    if found.Err? { return Err(found.error); }
    var (resource, stream) := found.value;
    var list := StreamVersions(store, up, resource, stream, env);
    if list.Err? { return Err(list.error); }
    var listing := SelectListing(list.value, stream.current, stream.scheme);
    r := Ok(listing);
  }

  // ----- What every list served or cached satisfies -----

  /** Ascending sortable versions, with the latest of them. The order is the same for every ordered scheme. */
  ghost predicate Good(list: VersionList) {
    && (forall v :: v in list.versions ==> Sortable(v.value, SchemeSemver))
    && Ordered(ByVersion(SchemeSemver), list.versions)
    && list.latest == LatestOf(list.versions)
  }

  ghost predicate ListsGood(db: S.Db) {
    forall k :: k in db.versionLists ==> Good(db.versionLists[k].list)
  }

  lemma ListOfGood(fetched: seq<Version>, scheme: Scheme)
    ensures Good(ListOf(fetched, scheme))
  {
    var sorted := Sorted(fetched, scheme);
    SortedMembers(fetched, scheme, sorted);
    forall v | v in sorted ensures Sortable(v.value, SchemeSemver) {
      SchemesAgree(v.value, v.value, scheme);
    }
    forall i, j | 0 <= i < j < |sorted| ensures ByVersion(SchemeSemver)(sorted[i], sorted[j]) {
      assert sorted[i] in sorted;
      SchemesAgree(sorted[i].value, sorted[j].value, scheme);
      assert ByVersion(scheme)(sorted[i], sorted[j]);
    }
  }

  /** Every list streamVersions answers is good, cached under whatever scheme or freshly fetched. */
  lemma VersionsForGood(db: S.Db, up: Option<Client>, resource: Resource, stream: VersionStream, now: int)
    requires ListsGood(db) && VersionsFor(db, up, resource, stream, now).Ok?
    ensures Good(VersionsFor(db, up, resource, stream, now).value)
  {
    if S.VersionListIn(db, ListKeyOf(resource, stream), now, VERSION_CACHE_TTL).None? {
      ListOfGood(FetchedIn(up, stream).value, stream.scheme);
    }
  }

  /** streamVersions keeps every cached list good, and answers a good one. */
  lemma StreamKeepsGood(db: S.Db, up: Option<Client>, resource: Resource, stream: VersionStream, env: Server.Env)
    requires ListsGood(db)
    ensures ListsGood(StreamStored(db, up, resource, stream, env))
    ensures var answer := StreamAnswer(db, up, resource, stream, env); answer.Ok? ==> Good(answer.value)
  {
    if StreamAnswer(db, up, resource, stream, env).Ok? {
      VersionsForGood(db, up, resource, stream, env.clock(1));
    }
  }

  lemma AtLeastUpward(v: Version, w: Version, current: string, scheme: Scheme)
    requires v == w || ByVersion(SchemeSemver)(v, w)
    requires Sortable(w.value, SchemeSemver) && AtLeast(v.value, current, scheme)
    ensures AtLeast(w.value, current, scheme)
  {
    SchemesAgree(w.value, current, scheme);
    SchemesAgree(v.value, w.value, scheme);
    SchemesAgree(current, current, scheme);
    CompareAntisymmetric(v.value, current, scheme);
    CompareAntisymmetric(w.value, current, scheme);
    if v != w {
      CompareTransitive(current, v.value, w.value, scheme);
    }
  }

  /** The listing is exactly the tail of the list from current on; empty if that has no place in the order. */
  lemma ListingIsSuffix(versions: seq<Version>, current: string, scheme: Scheme)
    requires Ordered(ByVersion(SchemeSemver), versions)
    requires forall v :: v in versions ==> Sortable(v.value, SchemeSemver)
    ensures |NotBefore(versions, current, scheme)| <= |versions|
    ensures
      var k := |versions| - |NotBefore(versions, current, scheme)|;
      && NotBefore(versions, current, scheme) == versions[k..]
      && forall i :: 0 <= i < |versions| ==> (i >= k <==> AtLeast(versions[i].value, current, scheme))
  {
    forall i, j | 0 <= i < j < |versions| && IsNotBefore(current, scheme)(versions[i])
      ensures IsNotBefore(current, scheme)(versions[j])
    {
      assert versions[j] in versions && ByVersion(SchemeSemver)(versions[i], versions[j]);
      AtLeastUpward(versions[i], versions[j], current, scheme);
    }
    FilterIsSuffix(IsNotBefore(current, scheme), versions);
  }

  lemma {:induction false} LastStableFacts(versions: seq<Version>)
    ensures LastStable(versions).None? <==> forall v :: v in versions ==> v.prerelease
    ensures LastStable(versions).Some? ==>
      exists i :: 0 <= i < |versions| && !versions[i].prerelease && versions[i].value == LastStable(versions).value
        && forall j :: i < j < |versions| ==> versions[j].prerelease
  {
    if versions != [] {
      var front, last := versions[..|versions| - 1], versions[|versions| - 1];
      assert versions == front + [last];
      LastStableFacts(front);
      if last.prerelease && LastStable(front).Some? {
        var i :| 0 <= i < |front| && !front[i].prerelease && front[i].value == LastStable(front).value
          && forall j :: i < j < |front| ==> front[j].prerelease;
        assert versions[i] == front[i];
      } else if !last.prerelease {
        assert versions[|versions| - 1] == last;
      }
    }
  }

  lemma OrderedAtMost(versions: seq<Version>, j: nat, i: nat)
    requires Ordered(ByVersion(SchemeSemver), versions) && j <= i < |versions|
    requires forall v :: v in versions ==> Sortable(v.value, SchemeSemver)
    ensures AtMost(versions[j].value, versions[i].value, SchemeSemver)
  {
    assert versions[j] in versions && versions[i] in versions;
    CompareAntisymmetric(versions[j].value, versions[i].value, SchemeSemver);
    if j < i { assert ByVersion(SchemeSemver)(versions[j], versions[i]); }
  }

  /** When there is a stable version, the latest is one, and no stable version is above it. */
  lemma LatestIsMaximalStable(list: VersionList)
    requires Good(list) && exists v :: v in list.versions && !v.prerelease
    ensures exists v :: v in list.versions && !v.prerelease && v.value == list.latest
    ensures forall v :: v in list.versions && !v.prerelease ==> AtMost(v.value, list.latest, SchemeSemver)
  {
    LastStableFacts(list.versions);
    var versions := list.versions;
    var i :| 0 <= i < |versions| && !versions[i].prerelease && versions[i].value == list.latest
      && forall j :: i < j < |versions| ==> versions[j].prerelease;
    assert versions[i] in versions;
    forall v | v in versions && !v.prerelease ensures AtMost(v.value, list.latest, SchemeSemver) {
      var j :| 0 <= j < |versions| && versions[j] == v;
      OrderedAtMost(versions, j, i);
    }
  }

  /** Stable versions are behind exactly when there is one and the latest of them is above current. */
  lemma BehindIffStableLatestAbove(list: VersionList, current: string, scheme: Scheme)
    requires Good(list)
    ensures ListingOf(list, current, scheme).behind > 0 <==>
      (exists v :: v in list.versions && !v.prerelease) && Above(list.latest, current, scheme)
  {
    var p := IsStableAbove(current, scheme);
    FilterMembers(p, list.versions);
    SchemesAgree(current, current, scheme);
    if StableAbove(list.versions, current, scheme) != [] {
      var v := StableAbove(list.versions, current, scheme)[0];
      assert v in StableAbove(list.versions, current, scheme);
      assert v in list.versions && !v.prerelease;
      LatestIsMaximalStable(list);
      SchemesAgree(v.value, list.latest, scheme);
      CompareAntisymmetric(v.value, current, scheme);
      AboveTransitive(v.value, list.latest, current, scheme);
    } else if exists v :: v in list.versions && !v.prerelease {
      LatestIsMaximalStable(list);
      var v :| v in list.versions && !v.prerelease && v.value == list.latest;
      assert p(v) <==> Above(list.latest, current, scheme);
      assert v !in StableAbove(list.versions, current, scheme);
    }
  }

  /**
   "versions_behind > 0 iff latest is above current" holds exactly unless every listed version
   is a pre-release and the last of them is above current: then latest is that pre-release,
   and nothing counts as behind.
   */
  lemma BehindVersusLatest(list: VersionList, current: string, scheme: Scheme)
    requires Good(list)
    ensures (ListingOf(list, current, scheme).behind > 0 <==> Above(list.latest, current, scheme))
       <==> ((exists v :: v in list.versions && !v.prerelease) || !Above(list.latest, current, scheme))
  {
    BehindIffStableLatestAbove(list, current, scheme);
  }

  lemma MajorOnly(s: string, n: nat)
    requires 0 < n < 10 && s == ['v', Decimal.DigitOf(n)]
    ensures Canonical(s, SchemeSemver) == (s, true)
    ensures Semver.Parse(s) == Some(Semver.Version(n, 0, 0, []))
  {
    assert TrimSpace(s) == s;
    var d := s[1..];
    assert d == [Decimal.DigitOf(n)] && d[1..] == [];
    assert Semver.DigitRun(d) == 1;
    assert Decimal.NatOf(d[..1]) == n by { assert d[..1][..0] == []; }
  }

  /** Such a list exists: one pre-release above the deployed version. */
  lemma OnlyPrereleases()
    ensures exists list, current ::
      && Good(list) && Sortable(current, SchemeSemver)
      && Above(list.latest, current, SchemeSemver) && ListingOf(list, current, SchemeSemver).behind == 0
  {
    var v := Version("v2", 0, true, false, "");
    var list := VersionList([v], "v2");
    MajorOnly("v1", 1);
    MajorOnly("v2", 2);
    assert LastStable([v][..0]) == None;
    assert StableAbove([v], "v1", SchemeSemver) == Filter(IsStableAbove("v1", SchemeSemver), [v][1..]);
    assert list.latest == LatestOf(list.versions);
    assert Good(list);
    assert Sortable("v1", SchemeSemver);
    assert Above(list.latest, "v1", SchemeSemver);
    assert ListingOf(list, "v1", SchemeSemver).behind == 0;
  }
}
