/** internal/server/scan.go: saving a scan, paging through it, and looking into it. */
module Scan {
  import opened Wrappers
  import opened Api
  import opened Orders
  import opened Decimal
  import opened Resolution
  import opened Upstream
  import Ref
  import Server
  import Upstreams
  import S = Store

  // ----- Scan -----

  /** The snapshot of the detected resources as they are now. */
  method Snapshot(resources: seq<Upstreams.DetectedResource>) returns (messages: seq<Resource>)
    ensures messages == Upstreams.Messages(resources)
  {
    messages := [];
    var i := 0;
    while i < |resources|
      invariant 0 <= i <= |resources| && |messages| == i
      invariant forall j :: 0 <= j < i ==> messages[j] == resources[j].Message()
    {
      messages := messages + [resources[i].Message()];
      i := i + 1;
    }
  }

  /** What resolving the upstreams of freshly detected resources comes to. */
  ghost function Resolved(detected: seq<Resource>, ticks: nat -> Tick, net: nat -> Client, db: S.Db): Progress {
    Run(Upstreams.RoundOf(detected, true, ticks, net), db.resolutions)
  }

  /** Enriches the resources in place and takes the snapshot to be saved. */
  method Enrich(store: S.Store, net: nat -> Client, resources: seq<Upstreams.DetectedResource>, ticks: nat -> Tick)
    returns (messages: seq<Resource>)
    requires forall i :: !net(i).egressAllowed("")
    modifies resources, store`db
    ensures
      var before := old(Upstreams.Messages(resources));
      var run := Resolved(before, ticks, net, old(store.db));
      && store.db == old(store.db).(resolutions := run.table)
      && messages == Upstreams.Outcomes(before, run.applied)
  {
    ghost var before := Upstreams.Messages(resources);
    ghost var run := Resolved(before, ticks, net, store.db);
    var cache := new Upstreams.ResolutionCache(store);
    Upstreams.Upstreams(net, cache, true, resources, ticks);
    messages := Snapshot(resources);
    forall i | 0 <= i < |before| ensures messages[i] == Upstreams.Outcome(before[i], run.applied) {
      assert Upstreams.HoldsAt(resources, before, run.applied, i);
    }
  }

  /** Resolution never touches a ref, so whether a scan can be saved is decided by detection. */
  lemma OutcomesKeepRefs(detected: seq<Resource>, run: Progress)
    ensures S.DistinctRefs(Upstreams.Outcomes(detected, run.applied)) <==> S.DistinctRefs(detected)
  {
    var rows, enriched := S.Rows(detected), S.Rows(Upstreams.Outcomes(detected, run.applied));
    forall i | 0 <= i < |rows| ensures enriched[i].ref == rows[i].ref {
      assert Upstreams.Outcome(detected[i], run.applied).ref == detected[i].ref;
    }
  }

  /** After detection: enrich in place, then save; what is returned is what is cached from then on. */
  method SaveDetected(store: S.Store, net: nat -> Client, resources: seq<Upstreams.DetectedResource>,
                      edges: seq<ResourceEdge>, ticks: nat -> Tick, now: int, fault: nat)
    returns (r: Result<ScanResponse, Server.RpcError>)
    requires store.Valid()
    requires forall i :: !net(i).egressAllowed("")
    modifies resources, store
    ensures store.Valid()
    ensures
      var before := old(Upstreams.Messages(resources));
      var run := Resolved(before, ticks, net, old(store.db));
      var db := old(store.db).(resolutions := run.table);
      var scan := ScanResponse(Upstreams.Outcomes(before, run.applied), edges, now);
      if S.DistinctRefs(before) && fault > |before| + 2
      then r == Ok(scan) && store.db == S.Superseded(db, scan)
      else r == Err(Server.Internal) && store.db == db
  {
    ghost var before, db := Upstreams.Messages(resources), store.db;
    var messages := Enrich(store, net, resources, ticks);
    S.OtherTablesIndependent(db, db.versionLists, db.changeSets, store.db.resolutions);
    OutcomesKeepRefs(before, Resolved(before, ticks, net, db));
    var scan := ScanResponse(messages, edges, now);
    var saved := store.SaveScan(scan, fault);
    r := if saved.Ok? then Ok(scan) else Err(Server.Internal);
  }

  // ----- Paging -----

  datatype Page = Page(resources: seq<Resource>, nextToken: string)

  function PageAt(resources: seq<Resource>, size: int, offset: nat): Page
    requires offset <= |resources|
  {
    var end := if size > 0 && offset + size < |resources| then offset + size else |resources|;
    Page(resources[offset..end], if end < |resources| then Itoa(end) else "")
  }

  /** One page from a token, which is the offset of its first resource in decimal. */
  function PageOf(resources: seq<Resource>, size: int, token: string): Result<Page, Server.RpcError> {
    var offset := if token == "" then Some(0) else Atoi(token);
    if offset.None? || offset.value < 0 || offset.value > |resources| then Err(Server.InvalidArgument)
    else Ok(PageAt(resources, size, offset.value))
  }

  method ListResources(store: S.Store, size: int, token: string, served: bool)
    returns (r: Result<Page, Server.RpcError>)
    ensures r == if !served then Err(Server.Internal)
                 else if Server.CachedScanIn(store.db).None? then Err(Server.FailedPrecondition)
                 else PageOf(Server.CachedScanIn(store.db).value.resources, size, token)
  {
    var scan := Server.CachedScan(store, served);
    if scan.Err? { return Err(scan.error); }
    var resources := scan.value.resources;
    var offset := 0;
    if token != "" {
      var parsed := Atoi(token);
      if parsed.None? || parsed.value < 0 || parsed.value > |resources| { return Err(Server.InvalidArgument); }
      offset := parsed.value;
    }
    var end := |resources|;
    if size > 0 && offset + size < end {
      end := offset + size;
    }
    var next := "";
    if end < |resources| {
      next := Itoa(end);
    }
    r := Ok(Page(resources[offset..end], next));
  }

  function TokenFor(offset: nat): string {
    if offset == 0 then "" else Itoa(offset)
  }

  /** A token leads to the page at its offset. */
  lemma TokenLeads(resources: seq<Resource>, size: int, offset: nat)
    requires offset <= |resources| <= MAX_INT
    ensures PageOf(resources, size, TokenFor(offset)) == Ok(PageAt(resources, size, offset))
  {
    AtoiInvertsItoa(offset);
  }

  /** The next token leads further on, right behind the page, and there is none exactly at the end. */
  lemma PageAdvances(resources: seq<Resource>, size: int, offset: nat)
    requires offset <= |resources| <= MAX_INT
    ensures
      var page := PageAt(resources, size, offset);
      var end := offset + |page.resources|;
      && end <= |resources| && page.resources == resources[offset..end]
      && end == (if 0 < size < |resources| - offset then offset + size else |resources|)
      && (page.nextToken == "" <==> end == |resources|)
      && (page.nextToken != "" ==> end > offset && page.nextToken == TokenFor(end) && |page.resources| == size)
  {
    AtoiInvertsItoa(offset + |PageAt(resources, size, offset).resources|);
  }

  /** Exactly the empty token and numerals of offsets within the scan are accepted, each leading to its page. */
  lemma TokensMean(resources: seq<Resource>, size: int, token: string)
    ensures PageOf(resources, size, token).Ok? ==>
      exists offset: nat ::
        && offset <= |resources| && PageOf(resources, size, token) == Ok(PageAt(resources, size, offset))
        && (if token == "" then offset == 0 else exists sign, z, n :: WritesInt(token, offset, sign, z, n))
    ensures PageOf(resources, size, token).Err? ==>
      && PageOf(resources, size, token) == Err(Server.InvalidArgument) && token != ""
      && forall v, sign, z, n :: WritesInt(token, v, sign, z, n) ==> v < 0 || v > |resources|
  {
    if token == "" {
      assert PageOf(resources, size, token) == Ok(PageAt(resources, size, 0));
    } else if Atoi(token).Some? {
      AtoiMeans(token, Atoi(token).value);
      forall v, sign, z, n | WritesInt(token, v, sign, z, n) ensures Atoi(token) == Some(v) {
        AtoiReads(token, v, sign, z, n);
      }
    } else {
      forall v, sign, z, n | WritesInt(token, v, sign, z, n) ensures false { AtoiReads(token, v, sign, z, n); }
    }
  }

  /** The pages a client collects that follows next_page_token, asking for sizes(k) on page k. */
  function Follow(resources: seq<Resource>, sizes: nat -> int, k: nat, offset: nat): seq<seq<Resource>>
    requires offset <= |resources| <= MAX_INT
    decreases |resources| - offset
  {
    TokenLeads(resources, sizes(k), offset);
    PageAdvances(resources, sizes(k), offset);
    var page := PageOf(resources, sizes(k), TokenFor(offset)).value;
    if page.nextToken == "" then [page.resources]
    else [page.resources] + Follow(resources, sizes, k + 1, offset + |page.resources|)
  }

  function Concat<T>(s: seq<seq<T>>): seq<T> {
    if s == [] then [] else s[0] + Concat(s[1..])
  }

  lemma ConcatCons<T>(head: seq<T>, rest: seq<seq<T>>)
    ensures Concat([head] + rest) == head + Concat(rest)
  {
    assert ([head] + rest)[1..] == rest;
  }

  lemma FollowStep(resources: seq<Resource>, sizes: nat -> int, k: nat, offset: nat)
    requires offset <= |resources| <= MAX_INT
    ensures
      var page := PageAt(resources, sizes(k), offset);
      var end := offset + |page.resources|;
      && end <= |resources|
      && Follow(resources, sizes, k, offset) ==
         if page.nextToken == "" then [page.resources] else [page.resources] + Follow(resources, sizes, k + 1, end)
  {
    TokenLeads(resources, sizes(k), offset);
    PageAdvances(resources, sizes(k), offset);
  }

  lemma SliceJoins<T>(s: seq<T>, i: nat, j: nat)
    requires i <= j <= |s|
    ensures s[i..j] + s[j..] == s[i..]
  {
  }

  /** Whatever the page sizes, following the tokens yields every resource once, in order. */
  lemma {:induction false} FollowYieldsAll(resources: seq<Resource>, sizes: nat -> int, k: nat, offset: nat)
    requires offset <= |resources| <= MAX_INT
    ensures Concat(Follow(resources, sizes, k, offset)) == resources[offset..]
    decreases |resources| - offset
  {
    PageAdvances(resources, sizes(k), offset);
    FollowStep(resources, sizes, k, offset);
    var page := PageAt(resources, sizes(k), offset);
    var end := offset + |page.resources|;
    SliceJoins(resources, offset, end);
    if page.nextToken != "" {
      FollowYieldsAll(resources, sizes, k + 1, end);
      ConcatCons(page.resources, Follow(resources, sizes, k + 1, end));
    } else {
      ConcatCons(page.resources, []);
    }
  }

  /** And it ends, after at most one page more than there are resources. */
  lemma {:induction false} FollowEnds(resources: seq<Resource>, sizes: nat -> int, k: nat, offset: nat)
    requires offset <= |resources| <= MAX_INT
    ensures |Follow(resources, sizes, k, offset)| <= 1 + |resources| - offset
    decreases |resources| - offset
  {
    PageAdvances(resources, sizes(k), offset);
    FollowStep(resources, sizes, k, offset);
    var page := PageAt(resources, sizes(k), offset);
    if page.nextToken != "" {
      FollowEnds(resources, sizes, k + 1, offset + |page.resources|);
    }
  }

  // ----- One resource -----

  datatype Found = Found(resource: Resource, edges: seq<ResourceEdge>)

  function Touches(target: ResourceRef): ResourceEdge -> bool {
    (e: ResourceEdge) => Ref.RefsEqual(e.parent, target) || Ref.RefsEqual(e.child, target)
  }

  method GetResource(store: S.Store, target: ResourceRef, served: bool) returns (r: Result<Found, Server.RpcError>)
    ensures !served ==> r == Err(Server.Internal)
    ensures served && Server.CachedScanIn(store.db).None? ==> r == Err(Server.FailedPrecondition)
    ensures served && Server.CachedScanIn(store.db).Some? ==>
      var scan := Server.CachedScanIn(store.db).value;
      var i := Server.FirstEqual(scan.resources, target);
      r == if i == |scan.resources| then Err(Server.NotFound)
           else Ok(Found(scan.resources[i],
                         Filter((e: ResourceEdge) => e.parent == target || e.child == target, scan.edges)))
  {
    var cached := Server.CachedScan(store, served);
    if cached.Err? { return Err(cached.error); }
    var scan := cached.value;
    var i := 0;
    while i < |scan.resources| && !Ref.RefsEqual(scan.resources[i].ref, target)
      invariant 0 <= i <= |scan.resources|
      invariant forall j :: 0 <= j < i ==> !Ref.RefsEqual(scan.resources[j].ref, target)
    {
      i := i + 1;
    }
    assert i == Server.FirstEqual(scan.resources, target);
    if i == |scan.resources| { return Err(Server.NotFound); }
    var edges := [];
    var k := 0;
    while k < |scan.edges|
      invariant 0 <= k <= |scan.edges|
      invariant edges == Filter(Touches(target), scan.edges[..k])
    {
      FilterStep(Touches(target), scan.edges, k);
      if Ref.RefsEqual(scan.edges[k].parent, target) || Ref.RefsEqual(scan.edges[k].child, target) {
        edges := edges + [scan.edges[k]];
      }
      k := k + 1;
    }
    assert scan.edges[..k] == scan.edges;
    FilterAgree(Touches(target), (e: ResourceEdge) => e.parent == target || e.child == target, scan.edges);
    r := Ok(Found(scan.resources[i], edges));
  }
}
