/** The protobuf messages the pipeline passes between its stages. */
module Api {
  import opened Wrappers

  datatype ResourceRef = ResourceRef(detector: string, namespace: string, name: string)

  datatype PackageKey = PackageKey(system: string, name: string, registryUrl: string)

  datatype LinkKind = SourceLink | HomepageLink | OtherLink

  datatype Link = Link(kind: LinkKind, url: string)

  datatype VersionKind = KindUnspecified | KindChart | KindApp | KindContainerImage | KindGitRevision | KindOther

  datatype Scheme = SchemeUnspecified | SchemeSemver | SchemeLooseSemver | SchemeTag | SchemeGit | SchemeOther

  datatype VersionSource =
    | GithubReleases(owner: string, repo: string)
    | HelmRepository(repositoryUrl: string, chart: string)
    | UnsupportedSource

  datatype ChangeSource = ReleaseNotesSource(repositoryUrl: string) | UnsupportedChangeSource

  datatype Provenance = Fetched(sourceUrl: string, collectedAt: int)

  datatype VersionStream = VersionStream(
    id: string,
    kind: VersionKind,
    current: string,
    scheme: Scheme,
    source: Option<VersionSource>,
    changes: seq<ChangeSource>,
    sourceProvenance: Option<Provenance>)

  /** `upstream` reads as empty where the message leaves it unset, which `hasUpstream` tells. */
  datatype Resource = Resource(
    ref: ResourceRef,
    displayName: string,
    hasUpstream: bool,
    upstream: PackageKey,
    links: seq<Link>,
    streams: seq<VersionStream>)

  datatype ResourceEdge = ResourceEdge(parent: ResourceRef, child: ResourceRef)

  datatype ScanResponse = ScanResponse(resources: seq<Resource>, edges: seq<ResourceEdge>, scannedAt: int)

  datatype Version = Version(value: string, releasedAt: int, prerelease: bool, deprecated: bool, link: string)

  datatype VersionList = VersionList(versions: seq<Version>, latest: string)

  datatype ChangeType = OtherChange | NamedChange(number: nat)

  datatype Change = Change(changeType: ChangeType, summary: string, detail: string, confidence: real)

  datatype VersionChanges = VersionChanges(
    version: string,
    releasedAt: int,
    changes: seq<Change>,
    provenance: Option<Provenance>)

  datatype ChangeSet = ChangeSet(
    package: Option<PackageKey>,
    kind: VersionKind,
    fromVersion: string,
    toVersion: string,
    versions: seq<VersionChanges>)

  datatype ImpactAssessment = ImpactAssessment(
    target: ResourceRef,
    streamId: string,
    fromVersion: string,
    toVersion: string,
    findings: string)
}
