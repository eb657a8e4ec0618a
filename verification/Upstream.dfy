/**
 internal/upstream as its callers see it: whatever URL parsing, the egress guard and the
 network answer during one call. Nothing is assumed about the answers.
 */
module Upstream {
  import opened Wrappers

  datatype Url = Url(scheme: string, host: string, path: string, rawQuery: string)

  /** A published GitHub release; drafts are already excluded. */
  datatype Release = Release(tag: string, body: string, htmlUrl: string, publishedAt: int, prerelease: bool)

  datatype ChartVersion = ChartVersion(
    version: string,
    appVersion: string,
    created: int,
    deprecated: bool,
    home: string,
    sources: seq<string>)

  datatype Repository = Repository(url: string, kind: int, verifiedPublisher: bool, official: bool)

  datatype HubPackage = HubPackage(
    normalizedName: string,
    official: bool,
    productionOrganizations: int,
    repository: Repository)

  const HELM_KIND := 0

  predicate HelmChart(p: HubPackage) { p.repository.kind == HELM_KIND }

  datatype Client = Client(
    parseUrl: string -> Option<Url>,
    toLower: string -> string,
    equalFold: (string, string) -> bool,
    egressAllowed: string -> bool,
    githubReleases: (string, string) -> Option<seq<Release>>,
    chartVersions: (string, string) -> Option<seq<ChartVersion>>,
    searchCharts: string -> Option<seq<HubPackage>>)
}
