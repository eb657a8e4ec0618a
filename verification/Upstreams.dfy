/**
 internal/resolve/resolve.go: enriching detected resources in place, and the cache adapter
 of internal/server/resolve.go it runs on.
 */
module Upstreams {
  import opened Wrappers
  import opened Api
  import opened Upstream
  import opened Resolution
  import Helm
  import S = Store

  /** The position of the first chart stream, or |streams|. */
  function ChartStream(streams: seq<VersionStream>): (i: nat)
    ensures i <= |streams| && forall j :: 0 <= j < i ==> streams[j].kind != KindChart
    ensures i < |streams| ==> streams[i].kind == KindChart
  {
    if streams == [] || streams[0].kind == KindChart then 0 else 1 + ChartStream(streams[1..])
  }

  predicate HasChart(m: Resource) { ChartStream(m.streams) < |m.streams| }

  /** The resource with a verified repository stamped on: its registry, and its chart stream's source. */
  function Enriched(m: Resource, stamp: Stamp): Resource {
    var i := ChartStream(m.streams);
    m.(upstream := m.upstream.(registryUrl := stamp.url),
       streams := if i < |m.streams| then m.streams[i := m.streams[i].(
           source := Some(HelmRepository(stamp.url, m.upstream.name)),
           sourceProvenance := Some(Fetched(stamp.url, stamp.at)))] else m.streams)
  }

  lemma {:induction false} ChartStreamKept(streams: seq<VersionStream>, i: nat, stream: VersionStream)
    requires i < |streams| && streams[i].kind == stream.kind
    ensures ChartStream(streams[i := stream]) == ChartStream(streams)
  {
    if i > 0 && streams[0].kind != KindChart {
      assert streams[i := stream][1..] == streams[1..][i - 1 := stream];
      ChartStreamKept(streams[1..], i - 1, stream);
    }
  }

  /** A detected resource, as the pointer the detectors hand out and the scan later stores. */
  class DetectedResource {
    const ref: ResourceRef
    const displayName: string
    const hasUpstream: bool
    const links: seq<Link>
    var upstream: PackageKey
    var streams: seq<VersionStream>

    constructor (message: Resource)
      ensures Message() == message
    {
      ref, displayName, links, hasUpstream := message.ref, message.displayName, message.links, message.hasUpstream;
      upstream, streams := message.upstream, message.streams;
    }

    function Message(): Resource reads this {
      Resource(ref, displayName, hasUpstream, upstream, links, streams)
    }

    method StampOn(stamp: Stamp)
      requires HasChart(Message())
      modifies this
      ensures Message() == Enriched(old(Message()), stamp)
    {
      upstream := upstream.(registryUrl := stamp.url);
      var k := ChartStream(streams);
      var chart := streams[k].(source := Some(HelmRepository(stamp.url, upstream.name)),
                               sourceProvenance := Some(Fetched(stamp.url, stamp.at)));
      ChartStreamKept(streams, k, chart);
      streams := streams[k := chart];
    }
  }

  predicate Eligible(m: Resource) {
    && m.upstream.system == "helm" && m.upstream.name != "" && m.upstream.registryUrl == ""
    && var i := ChartStream(m.streams); i < |m.streams| && m.streams[i].source.None?
  }

  function KeyOf(m: Resource): S.Package {
    S.Package(m.upstream.system, m.upstream.name)
  }

  /** Enriching takes a resource out of further resolution, and doing it twice changes nothing. */
  lemma EnrichedFacts(m: Resource, stamp: Stamp)
    ensures Enriched(Enriched(m, stamp), stamp) == Enriched(m, stamp)
    ensures stamp.url != "" ==> !Eligible(Enriched(m, stamp))
    ensures KeyOf(Enriched(m, stamp)) == KeyOf(m) && HasChart(Enriched(m, stamp)) == HasChart(m)
  {
    var i := ChartStream(m.streams);
    if i < |m.streams| {
      ChartStreamKept(m.streams, i, Enriched(m, stamp).streams[i]);
      assert Enriched(Enriched(m, stamp), stamp).streams == Enriched(m, stamp).streams;
    }
  }

  /** Stamps every release of a package; a resource listed twice is no different from one listed once. */
  method Apply(resources: seq<DetectedResource>, stamp: Stamp)
    requires forall r :: r in resources ==> HasChart(r.Message())
    modifies resources
    ensures forall r :: r in resources ==> r.Message() == Enriched(old(r.Message()), stamp)
  {
    var i := 0;
    while i < |resources|
      invariant 0 <= i <= |resources|
      invariant forall r :: r in resources ==>
        r.Message() == if r in resources[..i] then Enriched(old(r.Message()), stamp) else old(r.Message())
    {
      var r := resources[i];
      EnrichedFacts(old(r.Message()), stamp);
      r.StampOn(stamp);
      assert resources[..i + 1] == resources[..i] + [r];
      i := i + 1;
    }
    assert resources[..i] == resources;
  }

  // ----- The cache adapter -----

  /** Binds the two TTLs and swallows store errors: a hiccup reads as a miss. */
  class ResolutionCache {
    const store: S.Store

    constructor (store: S.Store)
      ensures this.store == store
    {
      this.store := store;
    }

    method Resolution(p: S.Package, now: int, served: bool) returns (r: Option<string>)
      ensures r == if !served then None else
        S.ResolutionIn(store.db.resolutions, p, now, RESOLUTION_TTL, RESOLUTION_FAILURE_TTL)
    {
      var url := store.Resolution(p, now, RESOLUTION_TTL, RESOLUTION_FAILURE_TTL, served);
      r := if url.Ok? then Some(url.value) else None;
    }

    method PutResolution(p: S.Package, url: string, now: int, served: bool)
      modifies store`db
      ensures store.db == if served
        then old(store.db).(resolutions := old(store.db).resolutions[p := S.ResolutionRow(url, S.Unix(now))])
                          else old(store.db)
    {
      var _ := store.PutResolution(p, url, now, served);
    }
  }

  // ----- Grouping -----

  /** The packages of the eligible resources, in order of first appearance. */
  function OrderOf(messages: seq<Resource>): seq<S.Package> {
    if messages == [] then []
    else
      var order := OrderOf(messages[..|messages| - 1]);
      var m := messages[|messages| - 1];
      if Eligible(m) && KeyOf(m) !in order then order + [KeyOf(m)] else order
  }

  /** The position of the first eligible resource of the package, or |messages|. */
  function HeadOf(messages: seq<Resource>, p: S.Package): (i: nat)
    ensures i <= |messages| && forall j :: 0 <= j < i ==> !(Eligible(messages[j]) && KeyOf(messages[j]) == p)
    ensures i < |messages| ==> Eligible(messages[i]) && KeyOf(messages[i]) == p
  {
    if messages == [] || (Eligible(messages[0]) && KeyOf(messages[0]) == p) then 0 else 1 + HeadOf(messages[1..], p)
  }

  lemma {:induction false} OrderOfMembers(messages: seq<Resource>)
    ensures Distinct(OrderOf(messages))
    ensures forall p :: p in OrderOf(messages) <==> exists m :: m in messages && Eligible(m) && KeyOf(m) == p
  {
    if messages != [] {
      var front, last := messages[..|messages| - 1], messages[|messages| - 1];
      assert messages == front + [last];
      OrderOfMembers(front);
      forall p ensures p in OrderOf(messages) <==> exists m :: m in messages && Eligible(m) && KeyOf(m) == p {
        if m :| m in messages && Eligible(m) && KeyOf(m) == p {
          assert m in front || m == last;
        }
        if p in OrderOf(front) {
          var m :| m in front && Eligible(m) && KeyOf(m) == p;
          assert m in messages;
        }
      }
    }
  }

  function Messages(resources: seq<DetectedResource>): (m: seq<Resource>)
    reads resources
    ensures |m| == |resources| && forall i :: 0 <= i < |m| ==> m[i] == resources[i].Message()
  {
    if resources == [] then [] else Messages(resources[..|resources| - 1]) + [resources[|resources| - 1].Message()]
  }

  /** The eligible resources of the package among the first n. */
  ghost function GroupOf(resources: seq<DetectedResource>, messages: seq<Resource>, n: nat, p: S.Package)
    : seq<DetectedResource>
    requires n <= |resources| == |messages|
  {
    if n == 0 then []
    else GroupOf(resources, messages, n - 1, p) +
         (if Eligible(messages[n - 1]) && KeyOf(messages[n - 1]) == p then [resources[n - 1]] else [])
  }

  ghost predicate ListedFor(resources: seq<DetectedResource>, messages: seq<Resource>, n: nat, p: S.Package,
                            r: DetectedResource)
    requires n <= |resources| == |messages|
  {
    exists i :: 0 <= i < n && resources[i] == r && Eligible(messages[i]) && KeyOf(messages[i]) == p
  }

  lemma ListedForStep(resources: seq<DetectedResource>, messages: seq<Resource>, n: nat, p: S.Package,
                      r: DetectedResource)
    requires n < |resources| == |messages|
    ensures ListedFor(resources, messages, n + 1, p, r) <==>
      ListedFor(resources, messages, n, p, r) || (resources[n] == r && Eligible(messages[n]) && KeyOf(messages[n]) == p)
  {
    if i :| 0 <= i < n && resources[i] == r && Eligible(messages[i]) && KeyOf(messages[i]) == p {
      assert 0 <= i < n + 1;
    }
  }

  lemma {:induction false} GroupOfMembers(resources: seq<DetectedResource>, messages: seq<Resource>, n: nat,
                                          p: S.Package, r: DetectedResource)
    requires n <= |resources| == |messages|
    ensures r in GroupOf(resources, messages, n, p) <==> ListedFor(resources, messages, n, p, r)
  {
    if n > 0 {
      GroupOfMembers(resources, messages, n - 1, p, r);
      ListedForStep(resources, messages, n - 1, p, r);
    }
  }

  lemma {:induction false} GroupOfHead(resources: seq<DetectedResource>, messages: seq<Resource>, n: nat, p: S.Package)
    requires n <= |resources| == |messages|
    ensures var h := HeadOf(messages, p);
      var g := GroupOf(resources, messages, n, p);
      if h < n then |g| > 0 && g[0] == resources[h] else g == []
  {
    if n > 0 {
      GroupOfHead(resources, messages, n - 1, p);
    }
  }

  ghost predicate Grouped(resources: seq<DetectedResource>, messages: seq<Resource>, n: nat,
                          groups: map<S.Package, seq<DetectedResource>>, order: seq<S.Package>)
    requires n <= |resources| == |messages|
  {
    && order == OrderOf(messages[..n])
    && (forall p :: p in groups <==> p in order)
    && (forall p :: p in groups ==> groups[p] == GroupOf(resources, messages, n, p))
  }

  lemma {:induction false} GroupOfAbsent(resources: seq<DetectedResource>, messages: seq<Resource>, n: nat,
                                         p: S.Package)
    requires n <= |resources| == |messages| && p !in OrderOf(messages[..n])
    ensures GroupOf(resources, messages, n, p) == []
  {
    if n > 0 {
      assert messages[..n][..n - 1] == messages[..n - 1];
      GroupOfAbsent(resources, messages, n - 1, p);
    }
  }

  lemma OrderStep(messages: seq<Resource>, n: nat)
    requires n < |messages|
    ensures var order, m := OrderOf(messages[..n]), messages[n];
      OrderOf(messages[..n + 1]) == if Eligible(m) && KeyOf(m) !in order then order + [KeyOf(m)] else order
  {
    assert messages[..n + 1][..n] == messages[..n];
  }

  /** The package of an eligible message. */
  function PackageOf(m: Resource): Option<S.Package> {
    if Eligible(m) then Some(KeyOf(m)) else None
  }

  lemma GroupStep(resources: seq<DetectedResource>, messages: seq<Resource>, n: nat, q: S.Package)
    requires n < |resources| == |messages|
    ensures GroupOf(resources, messages, n + 1, q) ==
      GroupOf(resources, messages, n, q) + (if PackageOf(messages[n]) == Some(q) then [resources[n]] else [])
  {
  }

  lemma GroupSkips(resources: seq<DetectedResource>, messages: seq<Resource>, n: nat,
                   groups: map<S.Package, seq<DetectedResource>>, order: seq<S.Package>)
    requires n < |resources| == |messages| && Grouped(resources, messages, n, groups, order)
    requires PackageOf(messages[n]) == None
    ensures Grouped(resources, messages, n + 1, groups, order)
  {
    OrderStep(messages, n);
    forall q | q in groups ensures groups[q] == GroupOf(resources, messages, n + 1, q) {
      GroupStep(resources, messages, n, q);
    }
  }

  lemma GroupJoins(resources: seq<DetectedResource>, messages: seq<Resource>, n: nat,
                   groups: map<S.Package, seq<DetectedResource>>, order: seq<S.Package>, p: S.Package)
    requires n < |resources| == |messages| && Grouped(resources, messages, n, groups, order)
    requires PackageOf(messages[n]) == Some(p)
    ensures var before := if p in groups then groups[p] else [];
      Grouped(resources, messages, n + 1, groups[p := before + [resources[n]]],
              if p in groups then order else order + [p])
  {
    OrderStep(messages, n);
    if p !in groups {
      GroupOfAbsent(resources, messages, n, p);
    }
    var more := groups[p := (if p in groups then groups[p] else []) + [resources[n]]];
    forall q | q in more ensures more[q] == GroupOf(resources, messages, n + 1, q) {
      GroupStep(resources, messages, n, q);
    }
  }

  /** One more resource joins the group of its package, which is new if no earlier one was of it. */
  lemma GroupedStep(resources: seq<DetectedResource>, messages: seq<Resource>, n: nat,
                    groups: map<S.Package, seq<DetectedResource>>, order: seq<S.Package>)
    requires n < |resources| == |messages| && Grouped(resources, messages, n, groups, order)
    ensures var m, p := messages[n], KeyOf(messages[n]);
      var before := if p in groups then groups[p] else [];
      if !Eligible(m) then Grouped(resources, messages, n + 1, groups, order)
      else Grouped(resources, messages, n + 1, groups[p := before + [resources[n]]],
                   if p in groups then order else order + [p])
  {
    if Eligible(messages[n]) {
      GroupJoins(resources, messages, n, groups, order, KeyOf(messages[n]));
    } else {
      GroupSkips(resources, messages, n, groups, order);
    }
  }

  /** Collects the eligible resources by package, in order of first appearance. */
  method Group(resources: seq<DetectedResource>)
    returns (groups: map<S.Package, seq<DetectedResource>>, order: seq<S.Package>)
    ensures Grouped(resources, Messages(resources), |resources|, groups, order)
  {
    groups, order := map[], [];
    ghost var messages := Messages(resources);
    var i := 0;
    while i < |resources|
      invariant 0 <= i <= |resources|
      invariant Grouped(resources, messages, i, groups, order)
    {
      var r := resources[i];
      GroupedStep(resources, messages, i, groups, order);
      if Eligible(r.Message()) {
        var p := KeyOf(r.Message());
        if p !in groups {
          order := order + [p];
          groups := groups[p := []];
        }
        groups := groups[p := groups[p] + [r]];
      }
      i := i + 1;
    }
  }

  // ----- The loop -----

  /** The network's answer for a package: what its first resource resolves to. */
  ghost function Answer(up: Client, messages: seq<Resource>, p: S.Package): string {
    var i := HeadOf(messages, p);
    if i == |messages| then ""
    else match Helm.ResolvedUrl(up, Helm.DeployedOf(up, messages[i]))
      case None => ""
      case Some(url) => url
  }

  ghost function RoundOf(messages: seq<Resource>, cached: bool, ticks: nat -> Tick, net: nat -> Client): Round {
    Round(OrderOf(messages), cached, ticks, (i: nat, p: S.Package) => Answer(net(i), messages, p))
  }

  /** What the round records for position i is what the run meets there. */
  ghost predicate RoundAt(round: Round, i: nat, messages: seq<Resource>, cached: bool, t: Tick, up: Client) {
    && round.order == OrderOf(messages) && round.cached == cached && round.ticks(i) == t
    && forall p :: round.answers(i, p) == Answer(up, messages, p)
  }

  ghost predicate RoundFor(round: Round, messages: seq<Resource>, cached: bool, ticks: nat -> Tick, net: nat -> Client)
  {
    forall i: nat :: RoundAt(round, i, messages, cached, ticks(i), net(i))
  }

  /** What a run makes of a resource. */
  function Outcome(m: Resource, applied: map<S.Package, Stamp>): Resource {
    if Eligible(m) && KeyOf(m) in applied then Enriched(m, applied[KeyOf(m)]) else m
  }

  ghost predicate HoldsAt(resources: seq<DetectedResource>, messages: seq<Resource>, applied: map<S.Package, Stamp>,
                          i: int)
    requires |messages| == |resources| && 0 <= i < |resources|
    reads resources
  {
    resources[i].Message() == Outcome(messages[i], applied)
  }

  ghost predicate Holds(resources: seq<DetectedResource>, messages: seq<Resource>, applied: map<S.Package, Stamp>)
    requires |messages| == |resources|
    reads resources
  {
    forall i :: 0 <= i < |resources| ==> HoldsAt(resources, messages, applied, i)
  }

  /** What a run makes of the detected resources. */
  function Outcomes(messages: seq<Resource>, applied: map<S.Package, Stamp>): (r: seq<Resource>)
    ensures |r| == |messages| && forall i :: 0 <= i < |r| ==> r[i] == Outcome(messages[i], applied)
  {
    seq(|messages|, i requires 0 <= i < |messages| => Outcome(messages[i], applied))
  }

  /** Wherever the ith resource is listed again, the same message is. */
  ghost predicate AliasedAt(resources: seq<DetectedResource>, messages: seq<Resource>, i: int)
    requires |messages| == |resources| && 0 <= i < |resources|
  {
    forall j :: 0 <= j < |resources| && resources[i] == resources[j] ==> messages[i] == messages[j]
  }

  ghost predicate Aliased(resources: seq<DetectedResource>, messages: seq<Resource>)
    requires |messages| == |resources|
  {
    forall i :: 0 <= i < |resources| ==> AliasedAt(resources, messages, i)
  }

  lemma InGroup(resources: seq<DetectedResource>, messages: seq<Resource>, p: S.Package, i: nat)
    requires i < |resources| == |messages| && Aliased(resources, messages)
    ensures resources[i] in GroupOf(resources, messages, |resources|, p) <==>
      Eligible(messages[i]) && KeyOf(messages[i]) == p
  {
    GroupOfMembers(resources, messages, |resources|, p, resources[i]);
    assert AliasedAt(resources, messages, i);
  }

  lemma OutcomeUntouched(m: Resource, applied: map<S.Package, Stamp>)
    requires Eligible(m) && KeyOf(m) !in applied
    ensures Outcome(m, applied) == m && HasChart(m)
  {
  }

  lemma GroupUntouched(resources: seq<DetectedResource>, messages: seq<Resource>, applied: map<S.Package, Stamp>,
                       p: S.Package, r: DetectedResource)
    requires |messages| == |resources| && Holds(resources, messages, applied) && p !in applied
    requires r in GroupOf(resources, messages, |resources|, p)
    ensures r in resources && HasChart(r.Message())
  {
    GroupOfMembers(resources, messages, |resources|, p, r);
    var i :| 0 <= i < |resources| && resources[i] == r && Eligible(messages[i]) && KeyOf(messages[i]) == p;
    assert HoldsAt(resources, messages, applied, i);
    OutcomeUntouched(messages[i], applied);
  }

  /** Stamps the package's group, and nothing else. */
  method ApplyGroup(resources: seq<DetectedResource>, ghost messages: seq<Resource>,
                    ghost applied: map<S.Package, Stamp>,
                    ghost p: S.Package, group: seq<DetectedResource>, stamp: Stamp)
    requires |messages| == |resources| && Holds(resources, messages, applied) && p !in applied
    requires group == GroupOf(resources, messages, |resources|, p) && Aliased(resources, messages)
    modifies resources
    ensures Holds(resources, messages, applied[p := stamp])
  {
    forall r | r in group ensures r in resources && HasChart(r.Message()) {
      GroupUntouched(resources, messages, applied, p, r);
    }
    forall k | 0 <= k < |group| ensures group[k] in resources { assert group[k] in group; }
    Apply(group, stamp);
    ghost var more := applied[p := stamp];
    forall i | 0 <= i < |resources| ensures HoldsAt(resources, messages, more, i) {
      InGroup(resources, messages, p, i);
      assert old(HoldsAt(resources, messages, applied, i));
    }
  }

  /** A group is handled while its resources are still as they were detected. */
  lemma HeadMessage(resources: seq<DetectedResource>, messages: seq<Resource>, applied: map<S.Package, Stamp>,
                    p: S.Package, group: seq<DetectedResource>)
    requires |messages| == |resources| && Holds(resources, messages, applied) && p !in applied
    requires group == GroupOf(resources, messages, |resources|, p) && p in OrderOf(messages)
    ensures HeadOf(messages, p) < |messages| && |group| > 0 && group[0].Message() == messages[HeadOf(messages, p)]
  {
    OrderOfMembers(messages);
    GroupOfHead(resources, messages, |resources|, p);
    var m :| m in messages && Eligible(m) && KeyOf(m) == p;
    var h := HeadOf(messages, p);
    assert HoldsAt(resources, messages, applied, h);
    OutcomeUntouched(messages[h], applied);
  }

  lemma AnswerOf(up: Client, messages: seq<Resource>, p: S.Package, url: Option<string>)
    requires !up.egressAllowed("") && HeadOf(messages, p) < |messages|
    requires url == Helm.ResolvedUrl(up, Helm.DeployedOf(up, messages[HeadOf(messages, p)]))
    ensures Answer(up, messages, p) == if url.Some? then url.value else ""
    ensures url.Some? ==> url.value != ""
  {
  }

  /** resolveHelm on the first release of the group. */
  method ResolveGroup(up: Client, resources: seq<DetectedResource>, group: seq<DetectedResource>, ghost p: S.Package,
                      ghost messages: seq<Resource>, ghost applied: map<S.Package, Stamp>)
    returns (url: Option<string>)
    requires |messages| == |resources| && Holds(resources, messages, applied) && p !in applied
    requires group == GroupOf(resources, messages, |resources|, p) && p in OrderOf(messages) && !up.egressAllowed("")
    ensures Answer(up, messages, p) == if url.Some? then url.value else ""
    ensures url.Some? ==> url.value != ""
  {
    HeadMessage(resources, messages, applied, p, group);
    var deployed := Helm.DeployedFrom(up, group[0].Message());
    url := Helm.ResolveHelm(up, deployed);
    AnswerOf(up, messages, p, url);
  }

  /** One network attempt: a success is applied, and the outcome recorded either way. */
  method Attempt(up: Client, cache: ResolutionCache, resources: seq<DetectedResource>, group: seq<DetectedResource>,
                 p: S.Package, t: Tick, cached: bool, ghost messages: seq<Resource>,
                 ghost applied: map<S.Package, Stamp>)
    requires |messages| == |resources| && Aliased(resources, messages) && Holds(resources, messages, applied)
      && p !in applied
    requires group == GroupOf(resources, messages, |resources|, p) && p in OrderOf(messages) && !up.egressAllowed("")
    modifies resources, cache.store`db
    ensures Holds(resources, messages, Applied(applied, p, Answer(up, messages, p), t.appliedAt))
    ensures cache.store.db == if !(cached && t.putServed) then old(cache.store.db) else
      var row := S.ResolutionRow(Answer(up, messages, p), S.Unix(t.putAt));
      old(cache.store.db).(resolutions := old(cache.store.db).resolutions[p := row])
  {
    var url := ResolveGroup(up, resources, group, p, messages, applied);
    if url.Some? {
      ApplyGroup(resources, messages, applied, p, group, Stamp(url.value, t.appliedAt));
    }
    if cached {
      cache.PutResolution(p, if url.Some? then url.value else "", t.putAt, t.putServed);
    }
  }

  /** One iteration of the loop. */
  method HandlePackage(up: Client, cache: ResolutionCache, resources: seq<DetectedResource>,
                       group: seq<DetectedResource>,
                       p: S.Package, t: Tick, cached: bool, fetched: nat, ghost messages: seq<Resource>,
                       ghost round: Round, ghost n: nat, ghost pr: Progress)
    returns (fetched': nat)
    requires |messages| == |resources| && Aliased(resources, messages) && Holds(resources, messages, pr.applied)
    requires n < |round.order| && round.order[n] == p && round.ticks(n) == t && p !in pr.applied
      && fetched == pr.fetched
    requires round.cached == cached && round.answers(n, p) == Answer(up, messages, p)
    requires group == GroupOf(resources, messages, |resources|, p) && p in OrderOf(messages)
    requires !up.egressAllowed("") && cache.store.db.resolutions == pr.table
    modifies resources, cache.store`db
    ensures var next := Handle(round, n, pr);
      && Holds(resources, messages, next.applied) && fetched' == next.fetched
      && cache.store.db == old(cache.store.db).(resolutions := next.table)
  {
    fetched' := fetched;
    if cached {
      var url := cache.Resolution(p, t.readAt, t.readServed);
      assert url == CacheHit(pr.table, p, t, cached);
      if url.Some? {
        assert Handle(round, n, pr) == pr.(applied := Applied(pr.applied, p, url.value, t.appliedAt));
        if url.value != "" {
          ApplyGroup(resources, messages, pr.applied, p, group, Stamp(url.value, t.appliedAt));
        }
        return;
      }
    }
    if fetched >= MAX_PACKAGES_PER_SCAN || t.cancelled {
      return;
    }
    fetched' := fetched + 1;
    assert Handle(round, n, pr).applied == Applied(pr.applied, p, round.answers(n, p), t.appliedAt);
    Attempt(up, cache, resources, group, p, t, cached, messages, pr.applied);
  }

  /** After n packages the resources, the table and the count are as the first n rounds leave them. */
  ghost predicate Reached(resources: seq<DetectedResource>, messages: seq<Resource>, round: Round, start: S.Db,
                          db: S.Db,
                          n: nat, fetched: nat)
    requires n <= |round.order| && |messages| == |resources|
    reads resources
  {
    var pr := RunTo(round, n, start.resolutions);
    Holds(resources, messages, pr.applied) && fetched == pr.fetched && db == start.(resolutions := pr.table)
  }

  /** What a run works with: its groups and their order, and a network whose guard rejects the empty URL. */
  ghost predicate SetUp(net: nat -> Client, cached: bool, resources: seq<DetectedResource>,
                        groups: map<S.Package, seq<DetectedResource>>, order: seq<S.Package>, ticks: nat -> Tick,
                        messages: seq<Resource>, round: Round)
  {
    && |messages| == |resources| && Aliased(resources, messages)
    && Grouped(resources, messages, |resources|, groups, order)
    && RoundFor(round, messages, cached, ticks, net)
    && |order| == |round.order| && forall i :: !net(i).egressAllowed("")
  }

  /** The iteration for the nth package of the order. */
  method HandleNext(net: nat -> Client, cache: ResolutionCache, cached: bool, resources: seq<DetectedResource>,
                    groups: map<S.Package, seq<DetectedResource>>, order: seq<S.Package>, ticks: nat -> Tick, n: nat,
                    fetched: nat,
                    ghost messages: seq<Resource>, ghost round: Round, ghost start: S.Db)
    returns (fetched': nat)
    requires SetUp(net, cached, resources, groups, order, ticks, messages, round) && n < |order|
    requires Reached(resources, messages, round, start, cache.store.db, n, fetched)
    modifies resources, cache.store`db
    ensures Reached(resources, messages, round, start, cache.store.db, n + 1, fetched')
  {
    assert messages[..|resources|] == messages && RoundAt(round, n, messages, cached, ticks(n), net(n));
    OrderOfMembers(messages);
    assert order[n] !in order[..n];
    RunAttemptedOnce(round, n, start.resolutions);
    fetched' := HandlePackage(net(n), cache, resources, groups[order[n]], order[n], ticks(n), cached, fetched,
                              messages, round, n, RunTo(round, n, start.resolutions));
  }

  /** All iterations, from where nothing has changed. */
  method HandleAll(net: nat -> Client, cache: ResolutionCache, cached: bool, resources: seq<DetectedResource>,
                   groups: map<S.Package, seq<DetectedResource>>, order: seq<S.Package>, ticks: nat -> Tick,
                   ghost messages: seq<Resource>, ghost round: Round, ghost start: S.Db)
    requires SetUp(net, cached, resources, groups, order, ticks, messages, round)
    requires Reached(resources, messages, round, start, cache.store.db, 0, 0)
    modifies resources, cache.store`db
    ensures exists fetched :: Reached(resources, messages, round, start, cache.store.db, |order|, fetched)
  {
    var fetched := 0;
    for n := 0 to |order|
      invariant Reached(resources, messages, round, start, cache.store.db, n, fetched)
    {
      fetched := HandleNext(net, cache, cached, resources, groups, order, ticks, n, fetched, messages, round, start);
    }
  }

  /** Without a cache (`cached` false) every run resolves from the network. */
  method Upstreams(net: nat -> Client, cache: ResolutionCache, cached: bool, resources: seq<DetectedResource>,
                   ticks: nat -> Tick)
    requires forall i :: !net(i).egressAllowed("")
    modifies resources, cache.store`db
    ensures
      var messages := old(Messages(resources));
      var run := Run(RoundOf(messages, cached, ticks, net), old(cache.store.db).resolutions);
      && Holds(resources, messages, run.applied)
      && cache.store.db == old(cache.store.db).(resolutions := run.table)
  {
    ghost var messages, start := Messages(resources), cache.store.db;
    ghost var round := RoundOf(messages, cached, ticks, net);
    var groups, order := Group(resources);
    assert messages[..|resources|] == messages;
    assert SetUp(net, cached, resources, groups, order, ticks, messages, round);
    HandleAll(net, cache, cached, resources, groups, order, ticks, messages, round, start);
  }

  ghost predicate ChartSourced(m: Resource, url: string) {
    var i := ChartStream(m.streams);
    && m.upstream.registryUrl == url && i < |m.streams|
    && m.streams[i].source == Some(HelmRepository(url, m.upstream.name))
  }

  lemma EnrichedSourced(m: Resource, stamp: Stamp)
    requires HasChart(m) && stamp.url != ""
    ensures ChartSourced(Enriched(m, stamp), stamp.url) && !Eligible(Enriched(m, stamp))
  {
    EnrichedFacts(m, stamp);
    var i := ChartStream(m.streams);
    ChartStreamKept(m.streams, i, Enriched(m, stamp).streams[i]);
  }

  /**
   What a run leaves of two detected resources: an ineligible one as it was; eligible ones of
   one package both as they were, or both with the same registry and chart source and out of
   further resolution.
   */
  lemma RunEnriches(round: Round, table: Table, a: Resource, b: Resource)
    requires Distinct(round.order)
    ensures var applied := Run(round, table).applied;
      var (x, y) := (Outcome(a, applied), Outcome(b, applied));
      && (!Eligible(a) ==> x == a)
      && (Eligible(a) && Eligible(b) && KeyOf(a) == KeyOf(b) ==>
           || (x == a && y == b)
           || exists url :: url != "" && ChartSourced(x, url) && ChartSourced(y, url) && !Eligible(x) && !Eligible(y))
  {
    var applied := Run(round, table).applied;
    RunAttemptedOnce(round, |round.order|, table);
    if Eligible(a) && Eligible(b) && KeyOf(a) == KeyOf(b) && KeyOf(a) in applied {
      var stamp := applied[KeyOf(a)];
      EnrichedSourced(a, stamp);
      EnrichedSourced(b, stamp);
    }
  }
}
