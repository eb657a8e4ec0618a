/**
 What GetChanges answers, for whatever bounds: in terms of the releases the stream's source lists, over every
 database that requests can leave, and range by range.
 */
module Changelog {
  import opened Wrappers
  import opened Api
  import opened Orders
  import opened Upstream
  import opened Changes
  import Semver
  import Vers
  import Server
  import Versions
  import S = Store

  // ----- The releases of a range -----

  /** Stable, above the lower bound, and at most the upper one. */
  ghost function Within(fromVersion: string, toVersion: string, scheme: Scheme): Release -> bool {
    (r: Release) =>
      && !r.prerelease
      && Vers.CompareOK(r.tag, fromVersion, scheme).Some? && Vers.CompareOK(r.tag, fromVersion, scheme).value > 0
      && Vers.CompareOK(r.tag, toVersion, scheme).Some? && Vers.CompareOK(r.tag, toVersion, scheme).value <= 0
  }

  ghost function ByTag(scheme: Scheme): (Release, Release) -> bool {
    (x: Release, y: Release) => Vers.Below(x.tag, y.tag, scheme)
  }

  lemma ByTagPreorder(scheme: Scheme)
    ensures TotalPreorder(ByTag(scheme))
  {
    forall x: Release, y: Release ensures ByTag(scheme)(x, y) || ByTag(scheme)(y, x) {
      Vers.BelowTotal(x.tag, y.tag, scheme);
    }
    forall x: Release, y: Release, z: Release | ByTag(scheme)(x, y) && ByTag(scheme)(y, z) ensures ByTag(scheme)(x, z) {
      Vers.BelowTransitive(x.tag, y.tag, z.tag, scheme);
    }
  }

  /** The releases of the range in version order, releases of equal precedence as the source lists them. */
  ghost function ReleasesIn(releases: seq<Release>, fromVersion: string, toVersion: string, scheme: Scheme)
    : (chosen: seq<Release>)
    ensures StableArrangement(ByTag(scheme), Filter(Within(fromVersion, toVersion, scheme), releases), chosen)
  {
    ByTagPreorder(scheme);
    Arrange(ByTag(scheme), Filter(Within(fromVersion, toVersion, scheme), releases))
  }

  /** What the agent gets of a release. */
  function AsNote(r: Release): Note {
    Note(r.tag, r.body, r.htmlUrl, r.publishedAt)
  }

  lemma {:induction false} FilterMapped<A, B>(f: A -> B, p: B -> bool, q: A -> bool, s: seq<A>)
    requires forall x :: x in s ==> p(f(x)) == q(x)
    ensures Filter(p, Versions.Map(f, s)) == Versions.Map(f, Filter(q, s))
  {
    if s == [] {
      assert Versions.Map(f, s) == [];
    } else {
      var rest := s[1..];
      FilterMapped(f, p, q, rest);
      assert Versions.Map(f, s)[1..] == Versions.Map(f, rest);
      assert Versions.Map(f, [s[0]] + Filter(q, rest)) == [f(s[0])] + Versions.Map(f, Filter(q, rest));
      assert Versions.Map(f, [] + Filter(q, rest)) == [] + Versions.Map(f, Filter(q, rest));
    }
  }

  /** Orders that agree along a map have the same classes along it. */
  lemma ClassMapped<A(!new), B(!new)>(le: (B, B) -> bool, lf: (A, A) -> bool, f: A -> B, x: B, a: A, s: seq<A>)
    requires forall y :: y in s ==> le(x, f(y)) == lf(a, y) && le(f(y), x) == lf(y, a)
    ensures Class(le, x, Versions.Map(f, s)) == Versions.Map(f, Class(lf, a, s))
  {
    var p, q := y => le(x, y) && le(y, x), y => lf(a, y) && lf(y, a);
    FilterMapped(f, p, q, s);
  }

  lemma {:induction false} SelectedAre(releases: seq<Release>, fromVersion: string, toVersion: string, scheme: Scheme)
    ensures Selected(releases, fromVersion, toVersion, scheme) ==
      Versions.Map(AsNote, Filter(Within(fromVersion, toVersion, scheme), releases))
  {
    var p := Within(fromVersion, toVersion, scheme);
    if releases == [] {
      assert Versions.Map(AsNote, Filter(p, releases)) == [];
    } else {
      var n := |releases| - 1;
      SelectedAre(releases[..n], fromVersion, toVersion, scheme);
      SelectedStep(releases, n, fromVersion, toVersion, scheme);
      FilterStep(p, releases, n);
      assert releases[..n + 1] == releases;
      var front := Filter(p, releases[..n]);
      assert Versions.Map(AsNote, front + [releases[n]]) == Versions.Map(AsNote, front) + [AsNote(releases[n])];
      assert front + [] == front;
    }
  }

  /** The notes a request works on are those of exactly these releases. */
  lemma NotesAre(releases: seq<Release>, fromVersion: string, toVersion: string, scheme: Scheme)
    ensures NotesOf(releases, fromVersion, toVersion, scheme) ==
      Versions.Map(AsNote, ReleasesIn(releases, fromVersion, toVersion, scheme))
  {
    var le, within := ByNote(scheme), Filter(Within(fromVersion, toVersion, scheme), releases);
    var chosen := ReleasesIn(releases, fromVersion, toVersion, scheme);
    var selected, notes := Selected(releases, fromVersion, toVersion, scheme), Versions.Map(AsNote, chosen);
    SelectedAre(releases, fromVersion, toVersion, scheme);
    forall x: Note ensures Class(le, x, selected) == Class(le, x, notes) {
      var r := Release(x.version, "", "", 0, false);
      ClassMapped(le, ByTag(scheme), AsNote, x, r, within);
      ClassMapped(le, ByTag(scheme), AsNote, x, r, chosen);
      assert Class(ByTag(scheme), r, within) == Class(ByTag(scheme), r, chosen);
    }
    forall i, j | 0 <= i < j < |notes| ensures le(notes[i], notes[j]) {
      assert ByTag(scheme)(chosen[i], chosen[j]);
    }
    ByNotePreorder(scheme);
    ArrangeUnique(le, selected, notes);
    ArrangeUnique(le, selected, NotesOf(releases, fromVersion, toVersion, scheme));
  }

  // ----- One answer -----

  /** The release as it is, as a single unstructured change collected at the time. */
  predicate Tells(v: VersionChanges, r: Release, at: int) {
    && v.version == r.tag && v.releasedAt == r.publishedAt
    && v.changes == [Change(OtherChange, "Release notes (unstructured)", r.body, 1.0)]
    && v.provenance == Some(Fetched(r.htmlUrl, at))
  }

  /** The answer for a range with these releases: what the agent makes of them, or each of them as it is. */
  ghost predicate AnswerFor(r: Result<ChangeSet, Server.RpcError>, agent: Option<Runner>, resource: Resource,
                            kind: VersionKind, fromVersion: string, toVersion: string, chosen: seq<Release>,
                            clock: nat -> int)
  {
    var said := if agent.None? then Err(NoCredentials)
                else agent.value.extract(resource.upstream, Versions.Map(AsNote, chosen));
    if chosen == [] then r == Err(Server.NotFound)
    else if said == Err(AgentFailed) || !resource.hasUpstream then r == Err(Server.Internal)
    else
      && r.Ok?
      && r.value == ChangeSet(Some(resource.upstream), kind, fromVersion, toVersion, r.value.versions)
      && (said.Ok? ==> r.value.versions == said.value)
      && (said.Err? ==>
           && |r.value.versions| == |chosen|
           && forall i :: 0 <= i < |chosen| ==> Tells(r.value.versions[i], chosen[i], clock(5 + i)))
  }

  lemma StructuredMeans(agent: Option<Runner>, package: PackageKey, chosen: seq<Release>, clock: nat -> int)
    ensures
      var said := if agent.None? then Err(NoCredentials)
                  else agent.value.extract(package, Versions.Map(AsNote, chosen));
      var r := Structured(agent, package, Versions.Map(AsNote, chosen), clock);
      && (r.Err? <==> said == Err(AgentFailed)) && (r.Err? ==> r.error == Server.Internal)
      && (r.Ok? && said.Ok? ==> r.value == said.value)
      && (r.Ok? && said.Err? ==>
           |r.value| == |chosen| && forall i :: 0 <= i < |chosen| ==> Tells(r.value[i], chosen[i], clock(5 + i)))
  {
  }

  lemma OutcomeMeans(db: S.Db, up: Option<Client>, agent: Option<Runner>, resource: Resource, stream: VersionStream,
                     fromVersion: string, toVersion: string, env: Server.Env, releases: seq<Release>)
    requires fromVersion != "" && toVersion != "" && env.served(3) && env.served(4)
    requires S.RangeKey(resource.upstream, stream.kind, fromVersion, toVersion) !in db.changeSets
    requires ReleasesFor(up, stream) == Ok(releases)
    ensures AnswerFor(RangeOutcome(db, up, agent, resource, stream, fromVersion, toVersion, env), agent, resource,
                      stream.kind, fromVersion, toVersion,
                      ReleasesIn(releases, fromVersion, toVersion, stream.scheme), env.clock)
  {
    var chosen := ReleasesIn(releases, fromVersion, toVersion, stream.scheme);
    NotesAre(releases, fromVersion, toVersion, stream.scheme);
    StructuredMeans(agent, resource.upstream, chosen, env.clock);
    assert chosen == [] <==> Versions.Map(AsNote, chosen) == [];
  }

  /**
   GetChanges with both bounds given, for a range that is not cached yet: exactly the stable releases above the
   first bound and at most the second, in version order, structured by the agent or as they are; none found if
   there are none; and what is answered is cached under that range.
   */
  lemma GivenRangeAnswer(db: S.Db, up: Option<Client>, agent: Option<Runner>, ref: ResourceRef, streamId: string,
                         fromVersion: string, toVersion: string, env: Server.Env, resource: Resource,
                         stream: VersionStream, releases: seq<Release>)
    requires fromVersion != "" && toVersion != "" && env.served(0) && env.served(3) && env.served(4)
    requires Server.StreamIn(Server.CachedScanIn(db), ref, streamId) == Ok((resource, stream))
    requires S.RangeKey(resource.upstream, stream.kind, fromVersion, toVersion) !in db.changeSets
    requires ReleasesFor(up, stream) == Ok(releases)
    ensures
      var (r, after) := ChangesOf(db, up, agent, ref, streamId, fromVersion, toVersion, env);
      var key := S.RangeKey(resource.upstream, stream.kind, fromVersion, toVersion);
      && AnswerFor(r, agent, resource, stream.kind, fromVersion, toVersion,
                   ReleasesIn(releases, fromVersion, toVersion, stream.scheme), env.clock)
      && after == if r.Ok? then db.(changeSets := db.changeSets[key := r.value]) else db
  {
    OutcomeMeans(db, up, agent, resource, stream, fromVersion, toVersion, env, releases);
  }

  /** A range that is cached is answered from the cache, whatever the network and the agent would say. */
  lemma CachedRangeAnswer(db: S.Db, up: Option<Client>, agent: Option<Runner>, ref: ResourceRef, streamId: string,
                          fromVersion: string, toVersion: string, env: Server.Env, resource: Resource,
                          stream: VersionStream)
    requires fromVersion != "" && toVersion != "" && env.served(0) && env.served(3)
    requires Server.StreamIn(Server.CachedScanIn(db), ref, streamId) == Ok((resource, stream))
    requires S.RangeKey(resource.upstream, stream.kind, fromVersion, toVersion) in db.changeSets
    ensures ChangesOf(db, up, agent, ref, streamId, fromVersion, toVersion, env) ==
      (Ok(db.changeSets[S.RangeKey(resource.upstream, stream.kind, fromVersion, toVersion)]), db)
  {
  }

  // ----- Range by range -----

  /** A change without the time its source was read. */
  function Content(v: VersionChanges): (string, int, seq<Change>, string) {
    (v.version, v.releasedAt, v.changes, if v.provenance.Some? then v.provenance.value.sourceUrl else "")
  }

  function Contents(r: Result<ChangeSet, Server.RpcError>): seq<(string, int, seq<Change>, string)> {
    if r.Ok? then Versions.Map(Content, r.value.versions) else []
  }

  function ContentOf(n: Note): (string, int, seq<Change>, string) {
    (n.version, n.releasedAt, [Change(OtherChange, "Release notes (unstructured)", n.body, 1.0)], n.url)
  }

  /** When a request meets the database, and what it meets. */
  datatype Visit = Visit(db: S.Db, env: Server.Env)

  /** Nothing is cached for the range, and every statement is served. */
  ghost predicate Fresh(v: Visit, ref: ResourceRef, streamId: string, resource: Resource, stream: VersionStream,
                        fromVersion: string, toVersion: string)
  {
    && (forall n :: v.env.served(n))
    && Server.StreamIn(Server.CachedScanIn(v.db), ref, streamId) == Ok((resource, stream))
    && S.RangeKey(resource.upstream, stream.kind, fromVersion, toVersion) !in v.db.changeSets
  }

  lemma VerbatimContents(v: Visit, up: Option<Client>, agent: Option<Runner>, ref: ResourceRef, streamId: string,
                         fromVersion: string, toVersion: string, resource: Resource, stream: VersionStream,
                         releases: seq<Release>)
    requires Fresh(v, ref, streamId, resource, stream, fromVersion, toVersion) && resource.hasUpstream
    requires fromVersion != "" && toVersion != "" && ReleasesFor(up, stream) == Ok(releases)
    requires agent.Some? ==> forall package, notes :: agent.value.extract(package, notes) == Err(NoCredentials)
    ensures Contents(ChangesOf(v.db, up, agent, ref, streamId, fromVersion, toVersion, v.env).0) ==
      Versions.Map(ContentOf, NotesOf(releases, fromVersion, toVersion, stream.scheme))
  {
    GivenRangeAnswer(v.db, up, agent, ref, streamId, fromVersion, toVersion, v.env, resource, stream, releases);
    NotesAre(releases, fromVersion, toVersion, stream.scheme);
  }

  lemma MapConcat<A, B>(f: A -> B, s: seq<A>, t: seq<A>)
    ensures Versions.Map(f, s + t) == Versions.Map(f, s) + Versions.Map(f, t)
  {
  }

  /**
   For sortable a <= b <= c, what GetChanges reports from a to c is what it reports from a to b followed by what it
   reports from b to c, whenever each is asked, as long as the source lists the same releases and no agent
   rewrites them.
   */
  lemma ReportsCompose(x: Visit, y: Visit, z: Visit, up: Option<Client>, agent: Option<Runner>, ref: ResourceRef,
                       streamId: string, a: string, b: string, c: string, resource: Resource, stream: VersionStream,
                       releases: seq<Release>)
    requires Vers.AtMost(a, b, stream.scheme) && Vers.AtMost(b, c, stream.scheme) && a != "" && b != "" && c != ""
    requires Fresh(x, ref, streamId, resource, stream, a, c) && Fresh(y, ref, streamId, resource, stream, a, b)
    requires Fresh(z, ref, streamId, resource, stream, b, c) && resource.hasUpstream
    requires ReleasesFor(up, stream) == Ok(releases)
    requires agent.Some? ==> forall package, notes :: agent.value.extract(package, notes) == Err(NoCredentials)
    ensures Contents(ChangesOf(x.db, up, agent, ref, streamId, a, c, x.env).0) ==
      Contents(ChangesOf(y.db, up, agent, ref, streamId, a, b, y.env).0) +
      Contents(ChangesOf(z.db, up, agent, ref, streamId, b, c, z.env).0)
  {
    VerbatimContents(x, up, agent, ref, streamId, a, c, resource, stream, releases);
    VerbatimContents(y, up, agent, ref, streamId, a, b, resource, stream, releases);
    VerbatimContents(z, up, agent, ref, streamId, b, c, resource, stream, releases);
    RangesCompose(releases, a, b, c, stream.scheme);
    MapConcat(ContentOf, NotesOf(releases, a, b, stream.scheme), NotesOf(releases, b, c, stream.scheme));
  }

  // ----- Every reachable change set -----

  /** A request's write of the set it made of a range, or any writes to other tables. */
  datatype Event =
    | RangeWritten(up: Option<Client>, agent: Option<Runner>, resource: Resource, stream: VersionStream,
                   fromVersion: string, toVersion: string, clock: nat -> int)
    | OtherWrites(tables: S.Db)

  /** What such a request makes of the range, when nothing is cached for it. */
  ghost function Made(e: Event): Option<ChangeSet>
    requires e.RangeWritten?
  {
    var env := Server.Env(n => true, e.clock);
    var r := RangeOutcome(S.EMPTY, e.up, e.agent, e.resource, e.stream, e.fromVersion, e.toVersion, env);
    if r.Ok? then Some(r.value) else None
  }

  ghost function KeyOfSet(e: Event): S.RangeKey
    requires e.RangeWritten?
  {
    S.RangeKey(e.resource.upstream, e.stream.kind, e.fromVersion, e.toVersion)
  }

  /** The change sets with what the request made filed under its range. */
  ghost function Filed(sets: map<S.RangeKey, ChangeSet>, e: Event): map<S.RangeKey, ChangeSet>
    requires e.RangeWritten?
  {
    if Made(e).None? then sets else sets[KeyOfSet(e) := Made(e).value]
  }

  ghost function After(db: S.Db, e: Event): S.Db {
    match e
    case RangeWritten(_, _, _, _, _, _, _) => db.(changeSets := Filed(db.changeSets, e))
    case OtherWrites(tables) => tables.(changeSets := db.changeSets)
  }

  ghost function AfterAll(events: seq<Event>): S.Db {
    if events == [] then S.EMPTY else After(AfterAll(events[..|events| - 1]), events[|events| - 1])
  }

  /** A made set is about its range, and is what the releases of it come to. */
  lemma MadeMeans(e: Event)
    requires e.RangeWritten? && Made(e).Some?
    ensures
      && Made(e).value.package == Some(e.resource.upstream) && Made(e).value.kind == e.stream.kind
      && Made(e).value.fromVersion == e.fromVersion && Made(e).value.toVersion == e.toVersion
      && ReleasesFor(e.up, e.stream).Ok?
      && AnswerFor(Ok(Made(e).value), e.agent, e.resource, e.stream.kind, e.fromVersion, e.toVersion,
                   ReleasesIn(ReleasesFor(e.up, e.stream).value, e.fromVersion, e.toVersion, e.stream.scheme), e.clock)
  {
    OutcomeMeans(S.EMPTY, e.up, e.agent, e.resource, e.stream, e.fromVersion, e.toVersion,
                 Server.Env(n => true, e.clock), ReleasesFor(e.up, e.stream).value);
  }

  /** Without a cached set, an answer does not depend on the database, nor on which statements were served. */
  lemma OutcomeAnywhere(db: S.Db, up: Option<Client>, agent: Option<Runner>, resource: Resource, stream: VersionStream,
                        start: string, end: string, env: Server.Env)
    requires S.RangeKey(resource.upstream, stream.kind, start, end) !in db.changeSets
    requires RangeOutcome(db, up, agent, resource, stream, start, end, env).Ok?
    ensures RangeOutcome(S.EMPTY, up, agent, resource, stream, start, end, Server.Env(n => true, env.clock)) ==
      RangeOutcome(db, up, agent, resource, stream, start, end, env)
    ensures var answer := RangeOutcome(db, up, agent, resource, stream, start, end, env).value;
      answer.fromVersion == start && answer.toVersion == end
  {
  }

  lemma OutcomeIsMade(db: S.Db, up: Option<Client>, agent: Option<Runner>, resource: Resource, stream: VersionStream,
                      start: string, end: string, env: Server.Env)
    ensures var r := RangeOutcome(db, up, agent, resource, stream, start, end, env);
      r.Ok? && S.RangeKey(resource.upstream, stream.kind, start, end) !in db.changeSets ==>
        && Made(RangeWritten(up, agent, resource, stream, start, end, env.clock)) == Some(r.value)
        && r.value.fromVersion == start && r.value.toVersion == end
  {
    var r := RangeOutcome(db, up, agent, resource, stream, start, end, env);
    if r.Ok? && S.RangeKey(resource.upstream, stream.kind, start, end) !in db.changeSets {
      OutcomeAnywhere(db, up, agent, resource, stream, start, end, env);
    }
  }

  lemma OutcomeIsStored(db: S.Db, up: Option<Client>, agent: Option<Runner>, resource: Resource, stream: VersionStream,
                        start: string, end: string, env: Server.Env)
    ensures
      var r := RangeOutcome(db, up, agent, resource, stream, start, end, env);
      var stored := RangeStored(db, resource, stream, start, end, r).changeSets;
      stored == db.changeSets ||
      (r.Ok? && r.value.fromVersion == start && r.value.toVersion == end
       && stored == Filed(db.changeSets, RangeWritten(up, agent, resource, stream, start, end, env.clock)))
  {
    OutcomeIsMade(db, up, agent, resource, stream, start, end, env);
  }

  /** GetChanges writes change sets at most once, as such an event for the range it answers. */
  lemma RangeWritesOnce(db: S.Db, up: Option<Client>, agent: Option<Runner>, resource: Resource, stream: VersionStream,
                        fromVersion: string, toVersion: string, env: Server.Env)
    ensures
      var (r, after) := ChangesFor(db, up, agent, resource, stream, fromVersion, toVersion, env);
      after.changeSets == db.changeSets ||
      (r.Ok? && after.changeSets == Filed(db.changeSets, RangeWritten(up, agent, resource, stream,
        r.value.fromVersion, r.value.toVersion, env.clock)))
  {
    var start := if fromVersion == "" then stream.current else fromVersion;
    if toVersion != "" {
      OutcomeIsStored(db, up, agent, resource, stream, start, toVersion, env);
    } else {
      var list := Versions.StreamAnswer(db, up, resource, stream, env);
      if list.Ok? {
        var listed := Versions.StreamStored(db, up, resource, stream, env);
        OutcomeIsStored(listed, up, agent, resource, stream, start, list.value.latest, env);
      }
    }
  }

  lemma {:induction false} CachedWasMade(events: seq<Event>, key: S.RangeKey)
    ensures var sets := AfterAll(events).changeSets;
      key in sets ==> exists e :: e in events && e.RangeWritten? && KeyOfSet(e) == key && Made(e) == Some(sets[key])
  {
    if events != [] {
      var front, last := events[..|events| - 1], events[|events| - 1];
      var before, after := AfterAll(front).changeSets, AfterAll(events).changeSets;
      CachedWasMade(front, key);
      assert events == front + [last];
      if key in after {
        if key in before && after[key] == before[key] {
          var e :| e in front && e.RangeWritten? && KeyOfSet(e) == key && Made(e) == Some(before[key]);
          assert e in events;
        } else {
          assert last in events;
        }
      }
    }
  }

  /** The upper bound of a request: the one given, else the latest version of the stream. */
  ghost predicate UpperBound(db: S.Db, up: Option<Client>, resource: Resource, stream: VersionStream, env: Server.Env,
                             toVersion: string, bound: string)
  {
    if toVersion != "" then bound == toVersion
    else
      var list := Versions.StreamAnswer(db, up, resource, stream, env);
      list.Ok? && bound == list.value.latest
  }

  /** The event made this answer: an earlier one, or the request itself. */
  ghost predicate MadeBy(e: Event, events: seq<Event>, up: Option<Client>, agent: Option<Runner>, answer: ChangeSet) {
    e.RangeWritten? && Made(e) == Some(answer) && (e in events || (e.up == up && e.agent == agent))
  }

  lemma OutcomeWasMade(events: seq<Event>, db: S.Db, up: Option<Client>, agent: Option<Runner>, resource: Resource,
                       stream: VersionStream, start: string, end: string, env: Server.Env)
    requires db.changeSets == AfterAll(events).changeSets
    requires RangeOutcome(db, up, agent, resource, stream, start, end, env).Ok?
    ensures var answer := RangeOutcome(db, up, agent, resource, stream, start, end, env).value;
      && answer.package == Some(resource.upstream) && answer.kind == stream.kind
      && answer.fromVersion == start && answer.toVersion == end
      && exists e :: MadeBy(e, events, up, agent, answer)
  {
    var key := S.RangeKey(resource.upstream, stream.kind, start, end);
    var answer := RangeOutcome(db, up, agent, resource, stream, start, end, env).value;
    if key in db.changeSets {
      CachedWasMade(events, key);
      var e :| e in events && e.RangeWritten? && KeyOfSet(e) == key && Made(e) == Some(db.changeSets[key]);
      assert MadeBy(e, events, up, agent, answer);
      MadeMeans(e);
    } else {
      var e := RangeWritten(up, agent, resource, stream, start, end, env.clock);
      OutcomeIsMade(db, up, agent, resource, stream, start, end, env);
      assert MadeBy(e, events, up, agent, answer);
      MadeMeans(e);
    }
  }

  lemma AnswerIsMade(events: seq<Event>, up: Option<Client>, agent: Option<Runner>, resource: Resource,
                     stream: VersionStream, fromVersion: string, toVersion: string, env: Server.Env)
    requires ChangesFor(AfterAll(events), up, agent, resource, stream, fromVersion, toVersion, env).0.Ok?
    ensures var db := AfterAll(events);
      var answer := ChangesFor(db, up, agent, resource, stream, fromVersion, toVersion, env).0.value;
      && answer.package == Some(resource.upstream) && answer.kind == stream.kind
      && answer.fromVersion == (if fromVersion != "" then fromVersion else stream.current)
      && UpperBound(db, up, resource, stream, env, toVersion, answer.toVersion)
      && exists e :: MadeBy(e, events, up, agent, answer)
  {
    var db, start := AfterAll(events), if fromVersion == "" then stream.current else fromVersion;
    if toVersion != "" {
      OutcomeWasMade(events, db, up, agent, resource, stream, start, toVersion, env);
    } else {
      var list := Versions.StreamAnswer(db, up, resource, stream, env);
      var listed := Versions.StreamStored(db, up, resource, stream, env);
      OutcomeWasMade(events, listed, up, agent, resource, stream, start, list.value.latest, env);
    }
  }

  /**
   Whatever GetChanges answers in a reachable database is about the package and kind of the stream asked for, from
   the bound given, or the deployed version, to the bound given, or the latest version; and it is what some request,
   this or an earlier one, made of the releases in exactly that range.
   */
  lemma AnswersRange(events: seq<Event>, up: Option<Client>, agent: Option<Runner>, ref: ResourceRef, streamId: string,
                     fromVersion: string, toVersion: string, env: Server.Env)
    ensures
      var db := AfterAll(events);
      var r := ChangesOf(db, up, agent, ref, streamId, fromVersion, toVersion, env).0;
      var found := Server.StreamIn(Server.CachedScanIn(db), ref, streamId);
      r.Ok? ==>
        && found.Ok? && var (resource, stream) := found.value;
        && r.value.package == Some(resource.upstream) && r.value.kind == stream.kind
        && r.value.fromVersion == (if fromVersion != "" then fromVersion else stream.current)
        && UpperBound(db, up, resource, stream, env, toVersion, r.value.toVersion)
        && exists e :: MadeBy(e, events, up, agent, r.value)
  {
    var db := AfterAll(events);
    var r := ChangesOf(db, up, agent, ref, streamId, fromVersion, toVersion, env).0;
    if r.Ok? {
      var (resource, stream) := Server.StreamIn(Server.CachedScanIn(db), ref, streamId).value;
      AnswerIsMade(events, up, agent, resource, stream, fromVersion, toVersion, env);
    }
  }

  // ----- Where the releases come from -----

  ghost predicate AllSlashes(s: string) { forall c :: c in s ==> c == '/' }

  /** The path names owner and repository first, between slashes. */
  ghost predicate NamesFirst(path: string, owner: string, repo: string, l: string, body: string, r: string) {
    && AllSlashes(l) && AllSlashes(r) && path == l + (body + r)
    && (body != "" ==> body[0] != '/' && body[|body| - 1] != '/')
    && '/' !in owner && '/' !in repo
    && (body == owner + ("/" + repo) || exists rest :: body == owner + ("/" + (repo + ("/" + rest))))
  }

  lemma {:induction false} TrimmedIs(path: string) returns (l: string, r: string)
    ensures var body := TrimSlashes(path);
      && AllSlashes(l) && AllSlashes(r) && path == l + (body + r)
      && (body != "" ==> body[0] != '/' && body[|body| - 1] != '/')
    decreases |path|
  {
    l, r := "", "";
    if path != "" && path[0] == '/' {
      l, r := TrimmedIs(path[1..]);
      assert path == "/" + path[1..];
      l := "/" + l;
    } else if path != "" && path[|path| - 1] == '/' {
      var front := path[..|path| - 1];
      l, r := TrimmedIs(front);
      assert path == front + "/";
      r := r + "/";
    }
  }

  lemma {:induction false} TrimsTo(l: string, body: string, r: string)
    requires AllSlashes(l) && AllSlashes(r) && body != "" && body[0] != '/' && body[|body| - 1] != '/'
    ensures TrimSlashes(l + (body + r)) == body
    decreases |l| + |r|
  {
    var path := l + (body + r);
    if l != "" {
      assert l[0] in l && path[1..] == l[1..] + (body + r);
      assert AllSlashes(l[1..]) by { forall c | c in l[1..] ensures c in l {} }
      TrimsTo(l[1..], body, r);
    } else if r != "" {
      var front := r[..|r| - 1];
      assert r[|r| - 1] in r && r == front + [r[|r| - 1]];
      assert path[..|path| - 1] == l + (body + front);
      assert AllSlashes(front) by { forall c | c in front ensures c in r {} }
      TrimsTo(l, body, front);
    }
  }

  /** The first part, and what follows its separator. */
  lemma SplitFirst(s: string) returns (rest: string)
    ensures var parts := Semver.Split(s, '/');
      && '/' !in parts[0] && (|parts| == 1 ==> s == parts[0])
      && (|parts| > 1 ==> s == parts[0] + ("/" + rest) && Semver.Split(rest, '/') == parts[1..])
  {
    var k := Semver.IndexOf(s, '/');
    rest := "";
    if k == |s| {
      Semver.SplitConcat(s, "", '/');
    } else {
      rest := s[k + 1..];
      Semver.SplitConcat(s[..k], rest, '/');
      assert s == s[..k] + ("/" + rest);
    }
  }

  lemma TwoParts(body: string, owner: string, repo: string)
    ensures var parts := Semver.Split(body, '/');
      |parts| >= 2 && parts[0] == owner && parts[1] == repo <==>
      && '/' !in owner && '/' !in repo
      && (body == owner + ("/" + repo) || exists rest :: body == owner + ("/" + (repo + ("/" + rest))))
  {
    var parts := Semver.Split(body, '/');
    var more := SplitFirst(body);
    if |parts| >= 2 {
      var rest := SplitFirst(more);
      if |parts| > 2 {
        assert body == parts[0] + ("/" + (parts[1] + ("/" + rest)));
      }
    }
    if '/' !in owner && '/' !in repo {
      if body == owner + ("/" + repo) {
        Semver.SplitConcat(owner, repo, '/');
        Semver.SplitConcat(repo, "", '/');
      } else if rest :| body == owner + ("/" + (repo + ("/" + rest))) {
        Semver.SplitConcat(owner, repo + ("/" + rest), '/');
        Semver.SplitConcat(repo, rest, '/');
      }
    }
  }

  lemma PartsMean(path: string, owner: string, repo: string)
    ensures var parts := Semver.Split(TrimSlashes(path), '/');
      |parts| >= 2 && parts[0] == owner && parts[1] == repo <==>
      exists l, body, r :: NamesFirst(path, owner, repo, l, body, r)
  {
    var body := TrimSlashes(path);
    var l, r := TrimmedIs(path);
    TwoParts(body, owner, repo);
    var parts := Semver.Split(body, '/');
    if |parts| >= 2 && parts[0] == owner && parts[1] == repo {
      assert NamesFirst(path, owner, repo, l, body, r);
    }
    if l', body', r' :| NamesFirst(path, owner, repo, l', body', r') {
      assert body' != "";
      TrimsTo(l', body', r');
    }
  }

  /** Exactly the first two parts of a github.com path are owner and repository. */
  lemma OwnerRepoMeans(up: Client, repositoryUrl: string, owner: string, repo: string)
    ensures GithubOwnerRepo(up, repositoryUrl) == Some((owner, repo)) <==>
      up.parseUrl(repositoryUrl).Some? && var url := up.parseUrl(repositoryUrl).value;
      url.host == "github.com" && exists l, body, r :: NamesFirst(url.path, owner, repo, l, body, r)
  {
    if up.parseUrl(repositoryUrl).Some? {
      var path := up.parseUrl(repositoryUrl).value.path;
      PartsMean(path, owner, repo);
    }
  }

  function ReleasesAt(up: Client, repositoryUrl: string): Result<seq<Release>, Server.RpcError> {
    match GithubOwnerRepo(up, repositoryUrl)
    case None => Err(Server.FailedPrecondition)
    case Some((owner, repo)) =>
      if up.githubReleases(owner, repo).None? then Err(Server.Internal) else Ok(up.githubReleases(owner, repo).value)
  }

  ghost predicate IsFirstNotes(changes: seq<ChangeSource>, i: int) {
    && 0 <= i < |changes| && changes[i].ReleaseNotesSource?
    && forall j :: 0 <= j < i ==> !changes[j].ReleaseNotesSource?
  }

  /** The releases are those of the repository that the first release-notes source of the stream is at. */
  lemma ReleasesMean(up: Option<Client>, stream: VersionStream)
    ensures up.None? ==> ReleasesFor(up, stream) == Err(Server.FailedPrecondition)
    ensures (forall c :: c in stream.changes ==> !c.ReleaseNotesSource?) ==>
      ReleasesFor(up, stream) == Err(Server.FailedPrecondition)
    ensures forall i :: up.Some? && IsFirstNotes(stream.changes, i) ==>
      ReleasesFor(up, stream) == ReleasesAt(up.value, stream.changes[i].repositoryUrl)
  {
    var i := FirstNotes(stream.changes);
    if i < |stream.changes| { assert stream.changes[i] in stream.changes; }
  }
}
