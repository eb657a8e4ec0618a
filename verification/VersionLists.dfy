/** What a stream's version list holds, where it comes from, and how long it is served. */
module VersionLists {
  import opened Wrappers
  import opened Api
  import opened Orders
  import opened Upstream
  import Vers
  import Server
  import Versions
  import S = Store

  /** A release as a version: a stable one or a pre-release, never deprecated. */
  predicate TellsRelease(v: Version, r: Release) {
    && v.value == r.tag && v.releasedAt == r.publishedAt && v.prerelease == r.prerelease && v.link == r.htmlUrl
    && !v.deprecated
  }

  /** An index entry as a version: deprecated or not, never a pre-release. */
  predicate TellsEntry(v: Version, c: ChartVersion) {
    && v.value == c.version && v.releasedAt == c.created && v.deprecated == c.deprecated && v.link == ""
    && !v.prerelease
  }

  /** What the stream's source lists, entry by entry, or why it cannot be read. */
  ghost predicate Lists(up: Option<Client>, stream: VersionStream, r: Result<seq<Version>, Server.RpcError>) {
    if up.None? || stream.source.None? then r == Err(Server.FailedPrecondition)
    else match stream.source.value
      case UnsupportedSource => r == Err(Server.Unimplemented)
      case GithubReleases(owner, repo) =>
        var releases := up.value.githubReleases(owner, repo);
        if releases.None? then r == Err(Server.Internal)
        else
          && r.Ok? && |r.value| == |releases.value|
          && forall i :: 0 <= i < |r.value| ==> TellsRelease(r.value[i], releases.value[i])
      case HelmRepository(url, chart) =>
        var entries := up.value.chartVersions(url, chart);
        if entries.None? then r == Err(Server.Internal)
        else
          && r.Ok? && |r.value| == |entries.value|
          && forall i :: 0 <= i < |r.value| ==> TellsEntry(r.value[i], entries.value[i])
  }

  lemma FetchMeans(up: Option<Client>, stream: VersionStream)
    ensures Lists(up, stream, Versions.FetchedIn(up, stream))
  {
  }

  /** The list of a package and kind that was cached at the time, if it is not older than an hour. */
  ghost predicate Served(db: S.Db, resource: Resource, stream: VersionStream, now: int, list: VersionList) {
    var key := S.ListKey(resource.upstream, stream.kind);
    && key in db.versionLists && db.versionLists[key].list == list
    && now - db.versionLists[key].fetchedAt * 1_000_000_000 <= 3_600 * 1_000_000_000
  }

  /**
   The list answered for a stream is the cached one while that is not older than an hour, whatever the network says,
   and otherwise exactly the sortable ones among what the source lists.
   */
  lemma StreamMeans(db: S.Db, up: Option<Client>, resource: Resource, stream: VersionStream, env: Server.Env)
    ensures var r := Versions.StreamAnswer(db, up, resource, stream, env);
      && (!env.served(1) ==> r == Err(Server.Internal))
      && (env.served(1) ==> forall list :: Served(db, resource, stream, env.clock(1), list) ==> r == Ok(list))
      && (env.served(1) && (forall list :: !Served(db, resource, stream, env.clock(1), list)) ==>
           exists fetched :: Lists(up, stream, fetched) && r.Err? == fetched.Err? &&
             if r.Err? then r.error == fetched.error
             else forall v :: v in r.value.versions <==> v in fetched.value && Vers.Sortable(v.value, stream.scheme))
  {
    var key := Versions.ListKeyOf(resource, stream);
    if S.VersionListIn(db, key, env.clock(1), Versions.VERSION_CACHE_TTL).Some? {
      assert Served(db, resource, stream, env.clock(1), db.versionLists[key].list);
    } else {
      FetchMeans(up, stream);
      var fetched := Versions.FetchedIn(up, stream);
      if fetched.Ok? {
        Versions.SortedMembers(fetched.value, stream.scheme, Versions.Sorted(fetched.value, stream.scheme));
      }
    }
  }

  /**
   A list that was fetched and cached is what is answered for its package and kind, whatever the network says by
   then, up to an hour after the second it was cached in, and not later.
   */
  lemma ServedForAnHour(db: S.Db, up: Option<Client>, resource: Resource, stream: VersionStream, env: Server.Env,
                        later: Option<Client>, again: VersionStream, afterwards: Server.Env)
    requires env.served(1) && env.served(2) && afterwards.served(1) && again.kind == stream.kind
    requires forall list :: !Served(db, resource, stream, env.clock(1), list)
    requires Versions.StreamAnswer(db, up, resource, stream, env).Ok?
    ensures
      var list := Versions.StreamAnswer(db, up, resource, stream, env).value;
      var cached := Versions.StreamStored(db, up, resource, stream, env);
      var second := env.clock(2) / 1_000_000_000;
      if afterwards.clock(1) - second * 1_000_000_000 <= 3_600 * 1_000_000_000
      then Versions.StreamAnswer(cached, later, resource, again, afterwards) == Ok(list)
      else forall other :: !Served(cached, resource, again, afterwards.clock(1), other)
  {
    var key := Versions.ListKeyOf(resource, stream);
    if S.VersionListIn(db, key, env.clock(1), Versions.VERSION_CACHE_TTL).Some? {
      assert Served(db, resource, stream, env.clock(1), db.versionLists[key].list);
    }
  }
}
