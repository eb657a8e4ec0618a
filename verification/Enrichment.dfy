/**
 What a run of the resolution comes to for each detected resource: which ones are due, in which order their
 packages are handled, and what is stamped on them.
 */
module Enrichment {
  import opened Wrappers
  import opened Api
  import opened Upstream
  import opened Resolution
  import opened Upstreams
  import Helm
  import S = Store

  // ----- What a run comes to for one resource -----

  ghost predicate FirstChart(streams: seq<VersionStream>, i: int) {
    0 <= i < |streams| && streams[i].kind == KindChart && forall j :: 0 <= j < i ==> streams[j].kind != KindChart
  }

  /** A Helm package without a registry, whose first chart stream has no source. */
  ghost predicate Unresolved(m: Resource) {
    && m.upstream.system == "helm" && m.upstream.name != "" && m.upstream.registryUrl == ""
    && exists i :: FirstChart(m.streams, i) && m.streams[i].source == None
  }

  lemma FirstChartIs(streams: seq<VersionStream>, i: int)
    ensures FirstChart(streams, i) <==> i == ChartStream(streams) && i < |streams|
  {
  }

  lemma EligibleMeans(m: Resource)
    ensures Eligible(m) <==> Unresolved(m)
  {
    forall i { FirstChartIs(m.streams, i); }
    if Eligible(m) { assert FirstChart(m.streams, ChartStream(m.streams)); }
  }

  /** x is m with the repository as its registry and as the source of its first chart stream, and nothing else new. */
  ghost predicate ResolvedTo(m: Resource, x: Resource, url: string, at: int) {
    && x == m.(upstream := PackageKey(m.upstream.system, m.upstream.name, url), streams := x.streams)
    && |x.streams| == |m.streams|
    && forall i :: 0 <= i < |m.streams| ==>
         x.streams[i] == if FirstChart(m.streams, i)
                         then m.streams[i].(source := Some(HelmRepository(url, m.upstream.name)),
                                            sourceProvenance := Some(Fetched(url, at)))
                         else m.streams[i]
  }

  lemma EnrichedMeans(m: Resource, stamp: Stamp)
    ensures ResolvedTo(m, Enriched(m, stamp), stamp.url, stamp.at)
  {
    forall i { FirstChartIs(m.streams, i); }
  }

  lemma HeadOfLonger(front: seq<Resource>, last: Resource, p: S.Package)
    ensures HeadOf(front + [last], p) ==
      if HeadOf(front, p) < |front| then HeadOf(front, p)
      else if Eligible(last) && KeyOf(last) == p then |front| else |front| + 1
  {
    var h, k, more := HeadOf(front, p), HeadOf(front + [last], p), front + [last];
    assert forall j :: 0 <= j < |front| ==> more[j] == front[j];
    assert more[|front|] == last;
  }

  /** Where the packages' first unresolved resources stand. */
  ghost function Heads(messages: seq<Resource>, order: seq<S.Package>): (r: seq<nat>)
    ensures |r| == |order| && forall i :: 0 <= i < |r| ==> r[i] == HeadOf(messages, order[i])
  {
    seq(|order|, i requires 0 <= i < |order| => HeadOf(messages, order[i]))
  }

  ghost predicate Increasing(s: seq<nat>, bound: nat) {
    (forall i :: 0 <= i < |s| ==> s[i] < bound) && forall i, j :: 0 <= i < j < |s| ==> s[i] < s[j]
  }

  lemma HeadsLonger(front: seq<Resource>, last: Resource, order: seq<S.Package>)
    requires Increasing(Heads(front, order), |front|)
    ensures Heads(front + [last], order) == Heads(front, order)
  {
    forall i | 0 <= i < |order| ensures HeadOf(front + [last], order[i]) == Heads(front, order)[i] {
      HeadOfLonger(front, last, order[i]);
    }
  }

  lemma HeadIsOrdered(messages: seq<Resource>, p: S.Package)
    ensures HeadOf(messages, p) < |messages| ==> p in OrderOf(messages)
  {
    OrderOfMembers(messages);
    var h := HeadOf(messages, p);
    if h < |messages| { assert messages[h] in messages; }
  }

  lemma NewHead(front: seq<Resource>, last: Resource)
    requires Eligible(last) && KeyOf(last) !in OrderOf(front)
    ensures HeadOf(front + [last], KeyOf(last)) == |front|
  {
    HeadIsOrdered(front, KeyOf(last));
    HeadOfLonger(front, last, KeyOf(last));
  }

  lemma IncreasingAppend(s: seq<nat>, x: nat, bound: nat)
    requires Increasing(s, x) && x < bound
    ensures Increasing(s + [x], bound)
  {
  }

  lemma HeadsAppend(messages: seq<Resource>, order: seq<S.Package>, p: S.Package)
    ensures Heads(messages, order + [p]) == Heads(messages, order) + [HeadOf(messages, p)]
  {
  }

  /** Packages are handled in the order in which their first unresolved resource was detected. */
  lemma {:induction false} OrderMeans(messages: seq<Resource>)
    ensures Increasing(Heads(messages, OrderOf(messages)), |messages|)
  {
    if messages != [] {
      var front, last := messages[..|messages| - 1], messages[|messages| - 1];
      assert messages == front + [last];
      OrderMeans(front);
      HeadsLonger(front, last, OrderOf(front));
      if Eligible(last) && KeyOf(last) !in OrderOf(front) {
        NewHead(front, last);
        HeadsAppend(messages, OrderOf(front), KeyOf(last));
        IncreasingAppend(Heads(messages, OrderOf(front)), |front|, |messages|);
      }
    }
  }

  /** m was resolved to the URL, or left as it was if that is empty. */
  ghost predicate ComesTo(m: Resource, x: Resource, url: string, at: int) {
    if url == "" then x == m else ResolvedTo(m, x, url, at)
  }

  predicate SamePackage(a: Resource, b: Resource) {
    a.upstream.system == b.upstream.system && a.upstream.name == b.upstream.name
  }

  /** The first unresolved resource of the package of m. */
  ghost predicate LeadsGroup(messages: seq<Resource>, h: int, m: Resource) {
    && 0 <= h < |messages| && SamePackage(messages[h], m) && Unresolved(messages[h])
    && forall j :: 0 <= j < h && SamePackage(messages[j], m) ==> !Unresolved(messages[j])
  }

  lemma OutcomeComesTo(m: Resource, round: Round, i: nat, applied: map<S.Package, Stamp>, url: string)
    requires Eligible(m) && i < |round.order| && round.order[i] == KeyOf(m) && AppliedAs(round, i, applied, url)
    ensures ComesTo(m, Outcome(m, applied), url, round.ticks(i).appliedAt)
  {
    if url != "" { EnrichedMeans(m, applied[KeyOf(m)]); }
  }

  lemma LeaderIs(messages: seq<Resource>, m: Resource, h: int)
    requires Unresolved(m) && LeadsGroup(messages, h, m)
    ensures h == HeadOf(messages, KeyOf(m)) && KeyOf(messages[h]) == KeyOf(m)
  {
    forall r { EligibleMeans(r); }
  }

  /** What m, whose package is handled at position i, comes to, from what the run starts from. */
  ghost predicate ComesOut(round: Round, i: nat, table: Table, m: Resource, x: Resource, found: Option<string>)
    requires i < |round.order|
  {
    var t := round.ticks(i);
    && (forall url :: Usable(round, i, table, url) ==> ComesTo(m, x, url, t.appliedAt))
    && (NothingUsable(round, i, table) ==>
         if !t.cancelled && |Asking(round, i, table)| < 20
         then ComesTo(m, x, if found.Some? then found.value else "", t.appliedAt) else x == m)
  }

  lemma PackageMeans(round: Round, i: nat, table: Table, m: Resource, found: Option<string>)
    requires i < |round.order| && Distinct(round.order) && Eligible(m) && round.order[i] == KeyOf(m)
    requires round.answers(i, KeyOf(m)) == if found.Some? then found.value else ""
    ensures ComesOut(round, i, table, m, Outcome(m, Run(round, table).applied), found)
  {
    var applied := Run(round, table).applied;
    RunApplies(round, i, table);
    forall url | AppliedAs(round, i, applied, url)
      ensures ComesTo(m, Outcome(m, applied), url, round.ticks(i).appliedAt)
    {
      OutcomeComesTo(m, round, i, applied, url);
    }
  }

  /**
   What a run leaves of a detected resource. One that is not unresolved stays. Otherwise its package has a
   position, and a usable outcome for that decides; without one, if the run is not cancelled and fewer than 20
   packages before asked for an attempt, what the first unresolved resource of the package resolves to; else it
   stays.
   */
  lemma RunMeans(messages: seq<Resource>, cached: bool, ticks: nat -> Tick, net: nat -> Client, table: Table,
                 m: Resource, h: int)
    requires m in messages && (Unresolved(m) ==> LeadsGroup(messages, h, m))
    ensures
      var round := RoundOf(messages, cached, ticks, net);
      var x := Outcome(m, Run(round, table).applied);
      if !Unresolved(m) then x == m
      else exists i: nat ::
        && i < |round.order| && round.order[i] == S.Package(m.upstream.system, m.upstream.name)
        && ComesOut(round, i, table, m, x, Helm.ResolvedUrl(net(i), Helm.DeployedOf(net(i), messages[h])))
  {
    var round := RoundOf(messages, cached, ticks, net);
    EligibleMeans(m);
    if Unresolved(m) {
      LeaderIs(messages, m, h);
      OrderOfMembers(messages);
      assert Eligible(m) && KeyOf(m) in round.order;
      var i: nat :| i < |round.order| && round.order[i] == KeyOf(m);
      PackageMeans(round, i, table, m, Helm.ResolvedUrl(net(i), Helm.DeployedOf(net(i), messages[h])));
    }
  }
}
