/** internal/server/changes.go: the change set of a stream's version range. */
module Changes {
  import opened Wrappers
  import opened Api
  import opened Orders
  import opened Vers
  import opened Upstream
  import Semver
  import Server
  import Versions
  import S = Store

  datatype Note = Note(version: string, body: string, url: string, releasedAt: int)

  datatype AgentError = NoCredentials | AgentFailed

  /** The extraction agent: any function of the package and its notes, which may fail. */
  datatype Runner = Runner(extract: (PackageKey, seq<Note>) -> Result<seq<VersionChanges>, AgentError>)

  // ----- Selecting the releases of a range -----

  /** In (from, to], as far as the scheme can place the version there at all. */
  predicate InRange(version: string, fromVersion: string, toVersion: string, scheme: Scheme) {
    Versions.Above(version, fromVersion, scheme) && AtMost(version, toVersion, scheme)
  }

  function NoteOf(r: Release): Note {
    Note(r.tag, r.body, r.htmlUrl, r.publishedAt)
  }

  function StableNotes(releases: seq<Release>): seq<Note> {
    if releases == [] then []
    else StableNotes(releases[..|releases| - 1]) +
         (if releases[|releases| - 1].prerelease then [] else [NoteOf(releases[|releases| - 1])])
  }

  function IsInRange(fromVersion: string, toVersion: string, scheme: Scheme): Note -> bool {
    (n: Note) => InRange(n.version, fromVersion, toVersion, scheme)
  }

  function Selected(releases: seq<Release>, fromVersion: string, toVersion: string, scheme: Scheme): seq<Note> {
    Filter(IsInRange(fromVersion, toVersion, scheme), StableNotes(releases))
  }

  ghost function ByNote(scheme: Scheme): (Note, Note) -> bool {
    (x: Note, y: Note) => Below(x.version, y.version, scheme)
  }

  lemma ByNotePreorder(scheme: Scheme)
    ensures TotalPreorder(ByNote(scheme))
  {
    forall x: Note, y: Note ensures ByNote(scheme)(x, y) || ByNote(scheme)(y, x) {
      BelowTotal(x.version, y.version, scheme);
    }
    forall x: Note, y: Note, z: Note | ByNote(scheme)(x, y) && ByNote(scheme)(y, z) ensures ByNote(scheme)(x, z) {
      BelowTransitive(x.version, y.version, z.version, scheme);
    }
  }

  lemma SelectedStep(releases: seq<Release>, i: nat, fromVersion: string, toVersion: string, scheme: Scheme)
    requires i < |releases|
    ensures Selected(releases[..i + 1], fromVersion, toVersion, scheme) ==
      Selected(releases[..i], fromVersion, toVersion, scheme) +
      (if !releases[i].prerelease && InRange(releases[i].tag, fromVersion, toVersion, scheme)
        then [NoteOf(releases[i])] else [])
  {
    var p := IsInRange(fromVersion, toVersion, scheme);
    assert releases[..i + 1][..i] == releases[..i];
    FilterConcat(p, StableNotes(releases[..i]), if releases[i].prerelease then [] else [NoteOf(releases[i])]);
    assert Filter(p, [NoteOf(releases[i])]) == if p(NoteOf(releases[i])) then [NoteOf(releases[i])] else [];
  }

  lemma SelectedSortable(releases: seq<Release>, fromVersion: string, toVersion: string, scheme: Scheme)
    ensures forall n :: n in Selected(releases, fromVersion, toVersion, scheme) ==>
      Sortable(n.version, scheme) && InRange(n.version, fromVersion, toVersion, scheme)
  {
    FilterMembers(IsInRange(fromVersion, toVersion, scheme), StableNotes(releases));
  }

  /** The range's stable releases, oldest first; ties stay in the source's order. */
  ghost function NotesOf(releases: seq<Release>, fromVersion: string, toVersion: string, scheme: Scheme)
    : (notes: seq<Note>)
    ensures StableArrangement(ByNote(scheme), Selected(releases, fromVersion, toVersion, scheme), notes)
  {
    ByNotePreorder(scheme);
    Arrange(ByNote(scheme), Selected(releases, fromVersion, toVersion, scheme))
  }

  method SelectReleases(releases: seq<Release>, fromVersion: string, toVersion: string, scheme: Scheme)
    returns (selected: seq<Note>)
    ensures StableArrangement(ByNote(scheme), Selected(releases, fromVersion, toVersion, scheme), selected)
  {
    var notes := [];
    var i := 0;
    while i < |releases|
      invariant 0 <= i <= |releases|
      invariant notes == Selected(releases[..i], fromVersion, toVersion, scheme)
    {
      var release := releases[i];
      SelectedStep(releases, i, fromVersion, toVersion, scheme);
      i := i + 1;
      var fromCmp := CompareOK(release.tag, fromVersion, scheme);
      var toCmp := CompareOK(release.tag, toVersion, scheme);
      if release.prerelease || fromCmp.None? || toCmp.None? || fromCmp.value <= 0 || toCmp.value > 0 {
        continue;
      }
      notes := notes + [NoteOf(release)];
    }
    assert releases[..i] == releases;
    ByNotePreorder(scheme);
    SelectedSortable(releases, fromVersion, toVersion, scheme);
    forall x, y | x in notes && y in notes
      ensures Compare(x.version, y.version, scheme) < 0 <==> !ByNote(scheme)(y, x)
    {
      BelowTotal(x.version, y.version, scheme);
    }
    selected := SortSlice(notes, (x: Note, y: Note) => Compare(x.version, y.version, scheme) < 0, ByNote(scheme));
  }

  // ----- Ranges compose -----

  lemma RangeSplits(v: string, a: string, b: string, c: string, scheme: Scheme)
    requires AtMost(a, b, scheme) && AtMost(b, c, scheme)
    ensures InRange(v, a, c, scheme) <==> InRange(v, a, b, scheme) || InRange(v, b, c, scheme)
    ensures !(InRange(v, a, b, scheme) && InRange(v, b, c, scheme))
  {
    if Sortable(v, scheme) {
      CompareAntisymmetric(v, b, scheme);
      CompareAntisymmetric(v, a, scheme);
      if AtMost(v, b, scheme) { CompareTransitive(v, b, c, scheme); }
      if Versions.Above(v, b, scheme) && AtMost(v, a, scheme) { CompareTransitive(v, a, b, scheme); }
    }
  }

  lemma EquivalentInRange(v: string, w: string, a: string, c: string, scheme: Scheme)
    requires Below(v, w, scheme) && Below(w, v, scheme) && InRange(v, a, c, scheme)
    ensures InRange(w, a, c, scheme)
  {
    CompareTransitive(w, v, c, scheme);
    AboveTransitive(v, w, a, scheme);
  }

  lemma RangeRespects(a: string, c: string, scheme: Scheme)
    ensures Respects(ByNote(scheme), IsInRange(a, c, scheme))
  {
    forall x: Note, y: Note | ByNote(scheme)(x, y) && ByNote(scheme)(y, x) && IsInRange(a, c, scheme)(x)
      ensures IsInRange(a, c, scheme)(y)
    {
      EquivalentInRange(x.version, y.version, a, c, scheme);
    }
  }

  lemma RangesApart(v: string, w: string, b: string, scheme: Scheme)
    requires AtMost(v, b, scheme) && Versions.Above(w, b, scheme)
    ensures Below(v, w, scheme)
  {
    CompareAntisymmetric(w, b, scheme);
    CompareTransitive(v, b, w, scheme);
  }

  lemma RangesAdjoin(a: string, b: string, c: string, scheme: Scheme)
    requires AtMost(a, b, scheme) && AtMost(b, c, scheme)
    ensures forall x :: IsInRange(a, c, scheme)(x) <==> IsInRange(a, b, scheme)(x) || IsInRange(b, c, scheme)(x)
    ensures forall x :: !(IsInRange(a, b, scheme)(x) && IsInRange(b, c, scheme)(x))
    ensures forall x, y :: IsInRange(a, b, scheme)(x) && IsInRange(b, c, scheme)(y) ==> ByNote(scheme)(x, y)
  {
    forall x: Note
      ensures IsInRange(a, c, scheme)(x) <==> IsInRange(a, b, scheme)(x) || IsInRange(b, c, scheme)(x)
      ensures !(IsInRange(a, b, scheme)(x) && IsInRange(b, c, scheme)(x))
    {
      RangeSplits(x.version, a, b, c, scheme);
    }
    forall x: Note, y: Note | IsInRange(a, b, scheme)(x) && IsInRange(b, c, scheme)(y)
      ensures ByNote(scheme)(x, y)
    {
      RangesApart(x.version, y.version, b, scheme);
    }
  }

  /**
   For sortable a <= b <= c the changelog of (a, c] is that of (a, b] followed by that of
   (b, c], releases of equal precedence included in order.
   */
  lemma RangesCompose(releases: seq<Release>, a: string, b: string, c: string, scheme: Scheme)
    requires AtMost(a, b, scheme) && AtMost(b, c, scheme)
    ensures NotesOf(releases, a, c, scheme) == NotesOf(releases, a, b, scheme) + NotesOf(releases, b, c, scheme)
  {
    ByNotePreorder(scheme);
    RangeRespects(a, b, scheme);
    RangeRespects(b, c, scheme);
    RangeRespects(a, c, scheme);
    RangesAdjoin(a, b, c, scheme);
    RangesConcat(ByNote(scheme), StableNotes(releases), IsInRange(a, b, scheme), IsInRange(b, c, scheme),
                 IsInRange(a, c, scheme), NotesOf(releases, a, b, scheme), NotesOf(releases, b, c, scheme),
                 NotesOf(releases, a, c, scheme));
  }

  // ----- The two RPCs agree -----

  /** Counting listed versions and counting release notes count the same releases. */
  lemma {:induction false} CountsMatch(releases: seq<Release>, p: Version -> bool, q: Note -> bool)
    requires forall r :: r in releases ==> (p(Versions.VersionOfRelease(r)) <==> !r.prerelease && q(NoteOf(r)))
    ensures |Filter(p, Versions.Map(Versions.VersionOfRelease, releases))| == |Filter(q, StableNotes(releases))|
  {
    if releases != [] {
      var n := |releases| - 1;
      var front, last := releases[..n], releases[n];
      CountsMatch(front, p, q);
      assert last in releases;
      var versions := Versions.Map(Versions.VersionOfRelease, releases);
      assert versions[..n] == Versions.Map(Versions.VersionOfRelease, front);
      FilterStep(p, versions, n);
      assert versions[..n + 1] == versions;
      FilterConcat(q, StableNotes(front), if last.prerelease then [] else [NoteOf(last)]);
      assert q(NoteOf(last)) ==> Filter(q, [NoteOf(last)]) == [NoteOf(last)];
    }
  }

  lemma BehindCountsFetched(fetched: seq<Version>, current: string, scheme: Scheme)
    ensures Versions.ListingOf(Versions.ListOf(fetched, scheme), current, scheme).behind
         == |Filter(Versions.IsStableAbove(current, scheme), fetched)|
  {
    var p := Versions.IsStableAbove(current, scheme);
    var sorted := Versions.Sorted(fetched, scheme);
    ByVersionPreorder(scheme);
    StablePermutes(ByVersion(scheme), SortableOnly(fetched, scheme), sorted);
    FilterPermuted(p, sorted, SortableOnly(fetched, scheme));
    FilterNested(p, (v: Version) => Sortable(v.value, scheme), fetched);
  }

  lemma StableAtMostLatest(fetched: seq<Version>, scheme: Scheme, v: Version)
    requires v in fetched && !v.prerelease && Sortable(v.value, scheme)
    ensures AtMost(v.value, Versions.ListOf(fetched, scheme).latest, scheme)
  {
    var list := Versions.ListOf(fetched, scheme);
    Versions.SortedMembers(fetched, scheme, list.versions);
    Versions.ListOfGood(fetched, scheme);
    Versions.LatestIsMaximalStable(list);
    SchemesAgree(v.value, list.latest, scheme);
  }

  /**
   A stream whose version source and release notes read the same releases: the number of
   versions it is behind is the number of releases in the changelog from current to latest.
   */
  lemma BehindIsChangelogLength(releases: seq<Release>, current: string, scheme: Scheme)
    ensures
      var list := Versions.ListOf(Versions.Map(Versions.VersionOfRelease, releases), scheme);
      Versions.ListingOf(list, current, scheme).behind == |Selected(releases, current, list.latest, scheme)|
  {
    var fetched := Versions.Map(Versions.VersionOfRelease, releases);
    var latest := Versions.ListOf(fetched, scheme).latest;
    var p, q := Versions.IsStableAbove(current, scheme), IsInRange(current, latest, scheme);
    BehindCountsFetched(fetched, current, scheme);
    forall r | r in releases ensures p(Versions.VersionOfRelease(r)) <==> !r.prerelease && q(NoteOf(r)) {
      var k :| 0 <= k < |releases| && releases[k] == r;
      assert fetched[k] == Versions.VersionOfRelease(r);
      if p(fetched[k]) { StableAtMostLatest(fetched, scheme, fetched[k]); }
    }
    CountsMatch(releases, p, q);
  }

  // ----- Resolving a change set -----

  /** strings.Trim(s, "/") */
  function TrimSlashes(s: string): string {
    if s != [] && s[0] == '/' then TrimSlashes(s[1..])
    else if s != [] && s[|s| - 1] == '/' then TrimSlashes(s[..|s| - 1])
    else s
  }

  function GithubOwnerRepo(up: Client, repositoryUrl: string): Option<(string, string)> {
    var url := up.parseUrl(repositoryUrl);
    if url.None? || url.value.host != "github.com" then None
    else
      var parts := Semver.Split(TrimSlashes(url.value.path), '/');
      if |parts| < 2 then None else Some((parts[0], parts[1]))
  }

  /** The position of the first supported change source, or |changes|. */
  function FirstNotes(changes: seq<ChangeSource>): (i: nat)
    ensures i <= |changes| && forall j :: 0 <= j < i ==> !changes[j].ReleaseNotesSource?
    ensures i < |changes| ==> changes[i].ReleaseNotesSource?
  {
    if changes == [] || changes[0].ReleaseNotesSource? then 0 else 1 + FirstNotes(changes[1..])
  }

  /** The releases the stream's change source lists, in the source's order. */
  function ReleasesFor(up: Option<Client>, stream: VersionStream): Result<seq<Release>, Server.RpcError> {
    if up.None? then Err(Server.FailedPrecondition)
    else
      var i := FirstNotes(stream.changes);
      if i == |stream.changes| then Err(Server.FailedPrecondition)
      else match GithubOwnerRepo(up.value, stream.changes[i].repositoryUrl)
        case None => Err(Server.FailedPrecondition)
        case Some((owner, repo)) =>
          var releases := up.value.githubReleases(owner, repo);
          if releases.None? then Err(Server.Internal) else Ok(releases.value)
  }

  method FetchReleaseNotes(up: Option<Client>, stream: VersionStream, fromVersion: string, toVersion: string)
    returns (r: Result<seq<Note>, Server.RpcError>)
    ensures r == match ReleasesFor(up, stream) {
      case Err(e) => Err(e)
      case Ok(releases) => Ok(NotesOf(releases, fromVersion, toVersion, stream.scheme))
    }
  {
    if up.None? { return Err(Server.FailedPrecondition); }
    var i := 0;
    while i < |stream.changes| && !stream.changes[i].ReleaseNotesSource?
      invariant 0 <= i <= |stream.changes|
      invariant forall j :: 0 <= j < i ==> !stream.changes[j].ReleaseNotesSource?
    {
      i := i + 1;
    }
    assert i == FirstNotes(stream.changes);
    if i == |stream.changes| { return Err(Server.FailedPrecondition); }
    var repository := GithubOwnerRepo(up.value, stream.changes[i].repositoryUrl);
    if repository.None? { return Err(Server.FailedPrecondition); }
    var releases := up.value.githubReleases(repository.value.0, repository.value.1);
    if releases.None? { return Err(Server.Internal); }
    var selected := SelectReleases(releases.value, fromVersion, toVersion, stream.scheme);
    ByNotePreorder(stream.scheme);
    ArrangeUnique(ByNote(stream.scheme), Selected(releases.value, fromVersion, toVersion, stream.scheme), selected);
    r := Ok(selected);
  }

  /** A note as it is, collected at the given time. */
  function Verbatim(n: Note, collectedAt: int): VersionChanges {
    VersionChanges(n.version, n.releasedAt,
                   [Change(OtherChange, "Release notes (unstructured)", n.body, 1.0)],
                   Some(Fetched(n.url, collectedAt)))
  }

  /** Clock reading 5 + i is that of the ith note; the readings before are those of the store's statements. */
  function AllVerbatim(notes: seq<Note>, clock: nat -> int): (r: seq<VersionChanges>)
    ensures |r| == |notes| && forall i :: 0 <= i < |r| ==> r[i] == Verbatim(notes[i], clock(5 + i))
  {
    seq(|notes|, i requires 0 <= i < |notes| => Verbatim(notes[i], clock(5 + i)))
  }

  function Structured(agent: Option<Runner>, package: PackageKey, notes: seq<Note>, clock: nat -> int)
    : Result<seq<VersionChanges>, Server.RpcError>
  {
    if agent.None? then Ok(AllVerbatim(notes, clock))
    else match agent.value.extract(package, notes)
      case Ok(versions) => Ok(versions)
      case Err(NoCredentials) => Ok(AllVerbatim(notes, clock))
      case Err(AgentFailed) => Err(Server.Internal)
  }

  /** Extraction by the agent; without credentials, the notes one by one, verbatim. */
  method StructureReleases(agent: Option<Runner>, package: PackageKey, notes: seq<Note>, clock: nat -> int)
    returns (r: Result<seq<VersionChanges>, Server.RpcError>)
    ensures r == Structured(agent, package, notes, clock)
  {
    if agent.Some? {
      var extracted := agent.value.extract(package, notes);
      if extracted.Ok? { return Ok(extracted.value); }
      if !extracted.error.NoCredentials? { return Err(Server.Internal); }
    }
    var versions := [];
    var i := 0;
    while i < |notes|
      invariant 0 <= i <= |notes| && |versions| == i
      invariant forall j :: 0 <= j < i ==> versions[j] == Verbatim(notes[j], clock(5 + j))
    {
      versions := versions + [Verbatim(notes[i], clock(5 + i))];
      i := i + 1;
    }
    assert versions == AllVerbatim(notes, clock);
    r := Ok(versions);
  }

  function PackageOf(resource: Resource): Option<PackageKey> {
    if resource.hasUpstream then Some(resource.upstream) else None
  }

  /** What a range resolves to once its bounds are known. */
  ghost function RangeOutcome(db: S.Db, up: Option<Client>, agent: Option<Runner>, resource: Resource,
                              stream: VersionStream, fromVersion: string, toVersion: string, env: Server.Env)
    : Result<ChangeSet, Server.RpcError>
  {
    var key := S.RangeKey(resource.upstream, stream.kind, fromVersion, toVersion);
    if fromVersion == "" || toVersion == "" then Err(Server.InvalidArgument)
    else if !env.served(3) then Err(Server.Internal)
    else if key in db.changeSets then Ok(db.changeSets[key])
    else match ReleasesFor(up, stream)
      case Err(e) => Err(e)
      case Ok(releases) =>
        var notes := NotesOf(releases, fromVersion, toVersion, stream.scheme);
        if notes == [] then Err(Server.NotFound)
        else match Structured(agent, resource.upstream, notes, env.clock)
          case Err(e) => Err(e)
          case Ok(versions) =>
            if resource.hasUpstream && env.served(4)
            then Ok(ChangeSet(PackageOf(resource), stream.kind, fromVersion, toVersion, versions))
            else Err(Server.Internal)
  }

  /** What is cached is what was answered; nothing else is written. */
  function RangeStored(db: S.Db, resource: Resource, stream: VersionStream, fromVersion: string, toVersion: string,
                       r: Result<ChangeSet, Server.RpcError>): (after: S.Db)
    ensures after.versionLists == db.versionLists
  {
    var key := S.RangeKey(resource.upstream, stream.kind, fromVersion, toVersion);
    if r.Ok? && key !in db.changeSets then db.(changeSets := db.changeSets[key := r.value]) else db
  }

  method ResolveRange(store: S.Store, up: Option<Client>, agent: Option<Runner>, resource: Resource,
                      stream: VersionStream, fromVersion: string, toVersion: string, env: Server.Env)
    returns (r: Result<ChangeSet, Server.RpcError>)
    modifies store
    ensures r == RangeOutcome(old(store.db), up, agent, resource, stream, fromVersion, toVersion, env)
    ensures store.db == RangeStored(old(store.db), resource, stream, fromVersion, toVersion, r)
  {
    if fromVersion == "" || toVersion == "" { return Err(Server.InvalidArgument); }
    var key := S.RangeKey(resource.upstream, stream.kind, fromVersion, toVersion);
    var cached := store.ChangeSet(key, env.served(3));
    if cached.Ok? { return Ok(cached.value); }
    if !cached.error.NotFound? { return Err(Server.Internal); }
    var notes := FetchReleaseNotes(up, stream, fromVersion, toVersion);
    if notes.Err? { return Err(notes.error); }
    if |notes.value| == 0 { return Err(Server.NotFound); }
    var versions := StructureReleases(agent, resource.upstream, notes.value, env.clock);
    if versions.Err? { return Err(versions.error); }
    var changes := ChangeSet(PackageOf(resource), stream.kind, fromVersion, toVersion, versions.value);
    var put := store.PutChangeSet(changes, env.served(4));
    if put.Err? { return Err(Server.Internal); }
    r := Ok(changes);
  }

  /** From current where "from" is left out, to latest where "to" is: the answer, and the database it leaves. */
  ghost function ChangesFor(db: S.Db, up: Option<Client>, agent: Option<Runner>, resource: Resource,
                            stream: VersionStream, fromVersion: string, toVersion: string, env: Server.Env)
    : (Result<ChangeSet, Server.RpcError>, S.Db)
  {
    var start := if fromVersion == "" then stream.current else fromVersion;
    if toVersion != "" then
      var r := RangeOutcome(db, up, agent, resource, stream, start, toVersion, env);
      (r, RangeStored(db, resource, stream, start, toVersion, r))
    else
      var list := Versions.StreamAnswer(db, up, resource, stream, env);
      if list.Err? then (Err(list.error), db)
      else
        var listed := Versions.StreamStored(db, up, resource, stream, env);
        var r := RangeOutcome(listed, up, agent, resource, stream, start, list.value.latest, env);
        (r, RangeStored(listed, resource, stream, start, list.value.latest, r))
  }

  ghost function ChangesOf(db: S.Db, up: Option<Client>, agent: Option<Runner>, ref: ResourceRef, streamId: string,
                           fromVersion: string, toVersion: string, env: Server.Env)
    : (Result<ChangeSet, Server.RpcError>, S.Db)
  {
    if !env.served(0) then (Err(Server.Internal), db)
    else
      var found := Server.StreamIn(Server.CachedScanIn(db), ref, streamId);
      if found.Err? then (Err(found.error), db)
      else ChangesFor(db, up, agent, found.value.0, found.value.1, fromVersion, toVersion, env)
  }

  method ResolveChangeSet(store: S.Store, up: Option<Client>, agent: Option<Runner>, ref: ResourceRef, streamId: string,
                          fromVersion: string, toVersion: string, env: Server.Env)
    returns (r: Result<ChangeSet, Server.RpcError>)
    modifies store
    ensures (r, store.db) == ChangesOf(old(store.db), up, agent, ref, streamId, fromVersion, toVersion, env)
  {
    var found := Server.ResourceStream(store, ref, streamId, env.served(0));
    if found.Err? { return Err(found.error); }
    var (resource, stream) := found.value;
    var start, end := fromVersion, toVersion;
    if start == "" { start := stream.current; }
    if end == "" {
      var list := Versions.StreamVersions(store, up, resource, stream, env);
      if list.Err? { return Err(list.error); }
      end := list.value.latest;
    }
    r := ResolveRange(store, up, agent, resource, stream, start, end, env);
  }

  /** The list ListVersions makes of the releases. */
  ghost function ListFrom(releases: seq<Release>, scheme: Scheme): VersionList {
    Versions.ListOf(Versions.Map(Versions.VersionOfRelease, releases), scheme)
  }

  lemma DefaultChangelogLength(releases: seq<Release>, current: string, scheme: Scheme)
    ensures
      var list := ListFrom(releases, scheme);
      var behind := Versions.ListingOf(list, current, scheme).behind;
      && |NotesOf(releases, current, list.latest, scheme)| == behind
      && (list.versions == [] || current == "" ==> behind == 0)
  {
    var list := ListFrom(releases, scheme);
    var selected := Selected(releases, current, list.latest, scheme);
    BehindIsChangelogLength(releases, current, scheme);
    ByNotePreorder(scheme);
    StablePermutes(ByNote(scheme), selected, NotesOf(releases, current, list.latest, scheme));
    Versions.SortableNonEmpty(scheme);
    if current == "" {
      FilterNone(Versions.IsStableAbove(current, scheme), list.versions);
    }
  }

  lemma LatestNonEmpty(fetched: seq<Version>, scheme: Scheme)
    ensures Versions.ListOf(fetched, scheme).latest == "" <==> Versions.ListOf(fetched, scheme).versions == []
  {
    var versions := Versions.ListOf(fetched, scheme).versions;
    Versions.SortedMembers(fetched, scheme, versions);
    Versions.LastStableFacts(versions);
    if versions != [] { assert versions[|versions| - 1] in versions; }
  }

  /**
   GetChanges with default bounds against ListVersions, for a stream whose version list was made
   from the releases its change source lists. If no version is listed, or none is deployed, the
   range cannot be determined and nothing is behind. Otherwise, unless the range is cached, "no
   releases found" is answered exactly when nothing is behind, and else the change set structures
   `behind` releases (and is refused by the cache if the resource has no package key).
   */
  lemma DefaultChangesAgree(db: S.Db, up: Option<Client>, agent: Option<Runner>, resource: Resource,
                            stream: VersionStream, releases: seq<Release>, env: Server.Env)
    requires forall n :: env.served(n)
    requires ReleasesFor(up, stream) == Ok(releases)
    requires Versions.VersionsFor(db, up, resource, stream, env.clock(1)) == Ok(ListFrom(releases, stream.scheme))
    ensures
      var list := ListFrom(releases, stream.scheme);
      var behind := Versions.ListingOf(list, stream.current, stream.scheme).behind;
      var outcome := ChangesFor(db, up, agent, resource, stream, "", "", env).0;
      var notes := NotesOf(releases, stream.current, list.latest, stream.scheme);
      var key := S.RangeKey(resource.upstream, stream.kind, stream.current, list.latest);
      && |notes| == behind
      && if list.versions == [] || stream.current == "" then behind == 0 && outcome == Err(Server.InvalidArgument)
         else if key in db.changeSets then outcome == Ok(db.changeSets[key])
         else if behind == 0 then outcome == Err(Server.NotFound)
         else outcome == match Structured(agent, resource.upstream, notes, env.clock) {
           case Err(e) => Err(e)
           case Ok(versions) =>
             if resource.hasUpstream
             then Ok(ChangeSet(PackageOf(resource), stream.kind, stream.current, list.latest, versions))
             else Err(Server.Internal)
         }
  {
    DefaultChangelogLength(releases, stream.current, stream.scheme);
    Versions.SortableNonEmpty(stream.scheme);
    LatestNonEmpty(Versions.Map(Versions.VersionOfRelease, releases), stream.scheme);
  }

  /** Both sources of the stream are one repository without releases, and a version is deployed. */
  ghost predicate EmptyRepository(up: Option<Client>, stream: VersionStream) {
    && ReleasesFor(up, stream) == Ok([]) && Versions.FetchedIn(up, stream) == Ok([])
    && Sortable(stream.current, stream.scheme)
  }

  lemma EmptyList(scheme: Scheme)
    ensures ListFrom([], scheme).versions == []
  {
    var versions := ListFrom([], scheme).versions;
    assert Versions.Map(Versions.VersionOfRelease, []) == [];
    ByVersionPreorder(scheme);
    StablePermutes(ByVersion(scheme), SortableOnly([], scheme), versions);
  }

  /** Nothing is behind such a stream, and yet the answer is not "no releases found". */
  lemma NothingListed(up: Option<Client>, agent: Option<Runner>, resource: Resource, stream: VersionStream,
                      env: Server.Env)
    requires EmptyRepository(up, stream) && forall n :: env.served(n)
    ensures Versions.ListingOf(ListFrom([], stream.scheme), stream.current, stream.scheme).behind == 0
    ensures ChangesFor(S.EMPTY, up, agent, resource, stream, "", "", env).0 == Err(Server.InvalidArgument)
  {
    assert Versions.Map(Versions.VersionOfRelease, []) == [];
    EmptyList(stream.scheme);
    DefaultChangesAgree(S.EMPTY, up, agent, resource, stream, [], env);
  }

  ghost predicate EmptyHub(up: Client) {
    up.parseUrl("") == Some(Url("https", "github.com", "a/b", "")) && up.githubReleases("a", "b") == Some([])
  }

  lemma SomeHubIsEmpty()
    ensures exists up :: EmptyHub(up)
  {
    var up := Client(
      (s: string) => Some(Url("https", "github.com", "a/b", "")),
      (s: string) => s,
      (s: string, t: string) => s == t,
      (s: string) => false,
      (owner: string, repo: string) => Some([]),
      (url: string, name: string) => None,
      (name: string) => None);
    assert EmptyHub(up);
  }

  lemma OwnerRepo()
    ensures TrimSlashes("a/b") == "a/b" && Semver.Split("a/b", '/') == ["a", "b"]
  {
    Semver.SplitConcat("a", "b", '/');
    Semver.SplitConcat("b", [], '/');
    assert "a" + (['/'] + "b") == "a/b";
  }

  lemma NoNotes(up: Client, stream: VersionStream)
    requires EmptyHub(up) && stream.changes == [ReleaseNotesSource("")]
    ensures ReleasesFor(Some(up), stream) == Ok([])
  {
    OwnerRepo();
    assert FirstNotes(stream.changes) == 0;
    assert GithubOwnerRepo(up, "") == Some(("a", "b"));
  }

  lemma NoVersions(up: Client, stream: VersionStream)
    requires EmptyHub(up) && stream.source == Some(GithubReleases("a", "b"))
    ensures Versions.FetchedIn(Some(up), stream) == Ok([])
  {
    assert Versions.Map(Versions.VersionOfRelease, []) == [];
  }

  lemma DeployedSortable()
    ensures Sortable("v1", SchemeSemver)
  {
    Versions.MajorOnly("v1", 1);
  }

  lemma EmptyRepositoryExists()
    ensures exists up, stream :: EmptyRepository(Some(up), stream)
  {
    SomeHubIsEmpty();
    var up :| EmptyHub(up);
    var stream := VersionStream("app", KindApp, "v1", SchemeSemver, Some(GithubReleases("a", "b")),
      [ReleaseNotesSource("")], None);
    NoNotes(up, stream);
    NoVersions(up, stream);
    DeployedSortable();
    assert EmptyRepository(Some(up), stream);
  }

  // ----- Every reachable list -----

  /**
   What happens to the version lists: a handler's write of the list it fetched, some time after
   it looked, or any writes to other tables.
   */
  datatype Event =
    | ListWritten(up: Option<Client>, resource: Resource, stream: VersionStream, at: int)
    | OtherWrites(tables: S.Db)

  ghost function After(db: S.Db, e: Event): S.Db {
    match e
    case ListWritten(up, resource, stream, at) =>
      var fetched := Versions.FetchedIn(up, stream);
      if fetched.Err? then db
      else
        var row := S.ListRow(S.Unix(at), Versions.ListOf(fetched.value, stream.scheme));
        db.(versionLists := db.versionLists[Versions.ListKeyOf(resource, stream) := row])
    case OtherWrites(tables) => tables.(versionLists := db.versionLists)
  }

  ghost function AfterAll(db: S.Db, events: seq<Event>): S.Db {
    if events == [] then db else After(AfterAll(db, events[..|events| - 1]), events[|events| - 1])
  }

  /** ListVersions writes the version lists at most once, as such an event. */
  lemma StreamWritesOnce(db: S.Db, up: Option<Client>, resource: Resource, stream: VersionStream, env: Server.Env)
    ensures var stored := Versions.StreamStored(db, up, resource, stream, env);
      stored == db || stored == After(db, ListWritten(up, resource, stream, env.clock(2)))
  {
  }

  /** So does GetChanges. */
  lemma ChangesWriteOnce(db: S.Db, up: Option<Client>, agent: Option<Runner>, resource: Resource, stream: VersionStream,
                         fromVersion: string, toVersion: string, env: Server.Env)
    ensures var lists := ChangesFor(db, up, agent, resource, stream, fromVersion, toVersion, env).1.versionLists;
      || lists == db.versionLists
      || lists == After(db, ListWritten(up, resource, stream, env.clock(2))).versionLists
  {
    StreamWritesOnce(db, up, resource, stream, env);
  }

  lemma AfterKeepsGood(db: S.Db, e: Event)
    requires Versions.ListsGood(db)
    ensures Versions.ListsGood(After(db, e))
  {
    if e.ListWritten? && Versions.FetchedIn(e.up, e.stream).Ok? {
      Versions.ListOfGood(Versions.FetchedIn(e.up, e.stream).value, e.stream.scheme);
    }
  }

  /** From an empty database, every interleaving of such writes leaves only good lists in the cache. */
  lemma {:induction false} ReachableListsGood(events: seq<Event>)
    ensures Versions.ListsGood(AfterAll(S.EMPTY, events))
  {
    if events != [] {
      ReachableListsGood(events[..|events| - 1]);
      AfterKeepsGood(AfterAll(S.EMPTY, events[..|events| - 1]), events[|events| - 1]);
    }
  }

  /** The event wrote the row under the key, from what its source listed. */
  ghost predicate Wrote(e: Event, key: S.ListKey, row: S.ListRow) {
    && e.ListWritten? && Versions.ListKeyOf(e.resource, e.stream) == key
    && var fetched := Versions.FetchedIn(e.up, e.stream);
       fetched.Ok? && row == S.ListRow(S.Unix(e.at), Versions.ListOf(fetched.value, e.stream.scheme))
  }

  /** Every cached list was made by one of the writes from what that one fetched. */
  lemma {:induction false} CachedWasFetched(events: seq<Event>, key: S.ListKey)
    ensures var lists := AfterAll(S.EMPTY, events).versionLists;
      key in lists ==> exists e :: e in events && Wrote(e, key, lists[key])
  {
    if events != [] {
      var front, last := events[..|events| - 1], events[|events| - 1];
      var before, after := AfterAll(S.EMPTY, front).versionLists, AfterAll(S.EMPTY, events).versionLists;
      CachedWasFetched(front, key);
      assert events == front + [last];
      if key in after {
        if key in before && after[key] == before[key] {
          var e :| e in front && Wrote(e, key, before[key]);
          assert e in events;
        } else {
          assert last in events && Wrote(last, key, after[key]);
        }
      }
    }
  }

  /** The last stable version, else the last one, else none. */
  ghost predicate IsLatest(versions: seq<Version>, latest: string) {
    if exists v :: v in versions && !v.prerelease then
      exists i :: 0 <= i < |versions| && !versions[i].prerelease && versions[i].value == latest
        && forall j :: i < j < |versions| ==> versions[j].prerelease
    else latest == if versions == [] then "" else versions[|versions| - 1].value
  }

  ghost predicate Newer(v: string, current: string, scheme: Scheme) {
    CompareOK(v, current, scheme).Some? && CompareOK(v, current, scheme).value > 0
  }

  /** It lists the tail of the list from current on. */
  ghost predicate ListsTail(listing: Versions.Listing, list: VersionList, scheme: Scheme) {
    && |listing.versions| <= |list.versions|
    && listing.versions == list.versions[|list.versions| - |listing.versions|..]
    && (forall v :: v in list.versions ==>
         (v in listing.versions <==>
           CompareOK(v.value, listing.current, scheme).Some? && CompareOK(v.value, listing.current, scheme).value >= 0))
  }

  /** It counts the stable versions above current; there are some exactly if the latest is one. */
  ghost predicate CountsBehind(listing: Versions.Listing, list: VersionList, scheme: Scheme) {
    && listing.behind ==
      |Filter((v: Version) => !v.prerelease && Newer(v.value, listing.current, scheme), list.versions)|
    && (listing.behind > 0 <==>
         (exists v :: v in list.versions && !v.prerelease) && Newer(list.latest, listing.current, scheme))
  }

  /** What a listing says about the list it was made from. */
  ghost predicate Meaningful(listing: Versions.Listing, list: VersionList, scheme: Scheme) {
    && Versions.Good(list) && listing.latest == list.latest && IsLatest(list.versions, list.latest)
    && ListsTail(listing, list, scheme) && CountsBehind(listing, list, scheme)
  }

  lemma LatestMeans(versions: seq<Version>)
    ensures IsLatest(versions, Versions.LatestOf(versions))
  {
    Versions.LastStableFacts(versions);
  }

  lemma BehindMeans(list: VersionList, current: string, scheme: Scheme)
    requires Versions.Good(list)
    ensures CountsBehind(Versions.ListingOf(list, current, scheme), list, scheme)
  {
    FilterAgree((v: Version) => !v.prerelease && Newer(v.value, current, scheme),
                Versions.IsStableAbove(current, scheme), list.versions);
    Versions.BehindIffStableLatestAbove(list, current, scheme);
  }

  lemma TailMeans(list: VersionList, current: string, scheme: Scheme)
    requires Versions.Good(list)
    ensures ListsTail(Versions.ListingOf(list, current, scheme), list, scheme)
  {
    Versions.ListingIsSuffix(list.versions, current, scheme);
    FilterMembers(Versions.IsNotBefore(current, scheme), list.versions);
  }

  lemma ListingMeans(list: VersionList, current: string, scheme: Scheme)
    requires Versions.Good(list)
    ensures Meaningful(Versions.ListingOf(list, current, scheme), list, scheme)
  {
    TailMeans(list, current, scheme);
    BehindMeans(list, current, scheme);
    LatestMeans(list.versions);
  }

  /** In every reachable database, for a stream looked up whenever, the list answered makes a meaningful listing. */
  lemma AnswersMean(events: seq<Event>, up: Option<Client>, resource: Resource, stream: VersionStream, env: Server.Env)
    ensures var list := Versions.StreamAnswer(AfterAll(S.EMPTY, events), up, resource, stream, env);
      list.Ok? ==>
        Meaningful(Versions.ListingOf(list.value, stream.current, stream.scheme), list.value, stream.scheme)
  {
    var db := AfterAll(S.EMPTY, events);
    var list := Versions.StreamAnswer(db, up, resource, stream, env);
    if list.Ok? {
      ReachableListsGood(events);
      Versions.StreamKeepsGood(db, up, resource, stream, env);
      ListingMeans(list.value, stream.current, stream.scheme);
    }
  }

  /**
   Whatever ListVersions answers in a reachable database is about the deployed version of the stream
   it was asked for, and lists exactly the tail of the stream's version list from there on, counting
   behind accordingly.
   */
  lemma ListVersionsMeans(events: seq<Event>, up: Option<Client>, ref: ResourceRef, streamId: string, env: Server.Env)
    ensures
      var db := AfterAll(S.EMPTY, events);
      var r := Versions.Listed(db, up, ref, streamId, env).0;
      var found := Server.StreamIn(Server.CachedScanIn(db), ref, streamId);
      r.Ok? ==>
        && found.Ok? && r.value.current == found.value.1.current
        && var list := Versions.StreamAnswer(db, up, found.value.0, found.value.1, env);
           list.Ok? && Meaningful(r.value, list.value, found.value.1.scheme)
  {
    var db := AfterAll(S.EMPTY, events);
    var found := Server.StreamIn(Server.CachedScanIn(db), ref, streamId);
    if found.Ok? {
      AnswersMean(events, up, found.value.0, found.value.1, env);
    }
  }
}
