/** Lookups in the cached scan shared by the RPC handlers. */
module Server {
  import opened Wrappers
  import opened Api
  import Ref
  import Store

  datatype RpcError = FailedPrecondition | NotFound | InvalidArgument | Unimplemented | Internal

  /** What a handler's calls meet: whether the driver serves its n-th statement, and its n-th clock reading. */
  datatype Env = Env(served: nat -> bool, clock: nat -> int)

  /** The position of the first resource whose ref equals the target field by field, or |resources|. */
  function FirstEqual(resources: seq<Resource>, target: ResourceRef): (i: nat)
    ensures i <= |resources| && forall j :: 0 <= j < i ==> !Ref.RefsEqual(resources[j].ref, target)
    ensures i < |resources| ==> Ref.RefsEqual(resources[i].ref, target)
  {
    if resources == [] || Ref.RefsEqual(resources[0].ref, target) then 0
    else 1 + FirstEqual(resources[1..], target)
  }

  /** The position of the first stream with the id, or |streams|. */
  function FirstStream(streams: seq<VersionStream>, id: string): (i: nat)
    ensures i <= |streams| && forall j :: 0 <= j < i ==> streams[j].id != id
    ensures i < |streams| ==> streams[i].id == id
  {
    if streams == [] || streams[0].id == id then 0 else 1 + FirstStream(streams[1..], id)
  }

  /** resourceStream on a given scan: a resource and one of its streams, the primary one for "". */
  function StreamIn(scan: Option<ScanResponse>, target: ResourceRef, streamId: string)
    : Result<(Resource, VersionStream), RpcError>
  {
    if scan.None? then Err(FailedPrecondition)
    else
      var i := FirstEqual(scan.value.resources, target);
      if i == |scan.value.resources| then Err(NotFound)
      else
        var resource := scan.value.resources[i];
        if resource.streams == [] then Err(FailedPrecondition)
        else if streamId == "" then Ok((resource, resource.streams[0]))
        else
          var k := FirstStream(resource.streams, streamId);
          if k == |resource.streams| then Err(NotFound) else Ok((resource, resource.streams[k]))
  }

  /** r is the first resource of the scan with this ref. */
  ghost predicate IsFound(scan: ScanResponse, target: ResourceRef, r: Resource) {
    exists i :: 0 <= i < |scan.resources| && scan.resources[i] == r && r.ref == target
      && forall j :: 0 <= j < i ==> scan.resources[j].ref != target
  }

  /** s is the first of the streams with the id, or the first of all for "". */
  ghost predicate IsNamed(streams: seq<VersionStream>, streamId: string, s: VersionStream) {
    exists k :: 0 <= k < |streams| && streams[k] == s
      && (if streamId == "" then k == 0
          else s.id == streamId && forall j :: 0 <= j < k ==> streams[j].id != streamId)
  }

  ghost predicate NamesNone(streams: seq<VersionStream>, streamId: string) {
    streamId != "" && forall s :: s in streams ==> s.id != streamId
  }

  /** A lookup finds exactly the resource with the ref, and its stream with the id or its first one. */
  lemma StreamMeans(scan: ScanResponse, target: ResourceRef, streamId: string, r: Resource, s: VersionStream)
    ensures StreamIn(Some(scan), target, streamId) == Ok((r, s)) <==>
      IsFound(scan, target, r) && IsNamed(r.streams, streamId, s)
  {
    var i := FirstEqual(scan.resources, target);
    if i < |scan.resources| && scan.resources[i] == r && r.streams != [] {
      assert IsFound(scan, target, r);
      var k := if streamId == "" then 0 else FirstStream(r.streams, streamId);
      if k < |r.streams| && r.streams[k] == s { assert IsNamed(r.streams, streamId, s); }
    }
    if IsFound(scan, target, r) && IsNamed(r.streams, streamId, s) {
      var j :| 0 <= j < |scan.resources| && scan.resources[j] == r && r.ref == target
        && forall m :: 0 <= m < j ==> scan.resources[m].ref != target;
      assert i == j;
    }
  }

  /** And what it fails with: without a scan or without streams a precondition, else the missing thing. */
  lemma StreamFailsMeans(scan: ScanResponse, target: ResourceRef, streamId: string)
    ensures StreamIn(None, target, streamId) == Err(FailedPrecondition)
    ensures (forall r :: r in scan.resources ==> r.ref != target) ==>
      StreamIn(Some(scan), target, streamId) == Err(NotFound)
    ensures forall r :: IsFound(scan, target, r) && r.streams == [] ==>
      StreamIn(Some(scan), target, streamId) == Err(FailedPrecondition)
    ensures forall r :: IsFound(scan, target, r) && r.streams != [] && NamesNone(r.streams, streamId) ==>
      StreamIn(Some(scan), target, streamId) == Err(NotFound)
  {
    var i := FirstEqual(scan.resources, target);
    if i < |scan.resources| { assert scan.resources[i] in scan.resources; }
  }

  function CachedScanIn(db: Store.Db): Option<ScanResponse> {
    match Store.LatestScanIn(db)
    case None => None
    case Some((_, scan)) => Some(scan)
  }

  /** What is cached is the scan that was saved last. */
  lemma SavedIsCached(db: Store.Db, scan: ScanResponse)
    ensures CachedScanIn(Store.Superseded(db, scan)) == Some(scan) && CachedScanIn(Store.EMPTY) == None
  {
    Store.SupersededIsLatest(db, scan);
  }

  method CachedScan(store: Store.Store, served: bool) returns (r: Result<ScanResponse, RpcError>)
    ensures r == if !served then Err(Internal)
                 else if CachedScanIn(store.db).None? then Err(FailedPrecondition) else Ok(CachedScanIn(store.db).value)
  {
    var latest := store.LatestScan(served);
    match latest
    case Ok((_, scan)) => r := Ok(scan);
    case Err(e) => r := Err(if e.NotFound? then FailedPrecondition else Internal);
  }

  method ResourceStream(store: Store.Store, target: ResourceRef, streamId: string, served: bool)
    returns (r: Result<(Resource, VersionStream), RpcError>)
    ensures r == if !served then Err(Internal) else StreamIn(CachedScanIn(store.db), target, streamId)
  {
    var scan := CachedScan(store, served);
    if scan.Err? { return Err(scan.error); }
    var resources := scan.value.resources;
    var i := 0;
    while i < |resources| && !Ref.RefsEqual(resources[i].ref, target)
      invariant 0 <= i <= |resources|
      invariant forall j :: 0 <= j < i ==> !Ref.RefsEqual(resources[j].ref, target)
    {
      i := i + 1;
    }
    assert i == FirstEqual(resources, target);
    if i == |resources| { return Err(NotFound); }
    var streams := resources[i].streams;
    if |streams| == 0 { return Err(FailedPrecondition); }
    if streamId == "" { return Ok((resources[i], streams[0])); }
    var k := 0;
    while k < |streams| && streams[k].id != streamId
      invariant 0 <= k <= |streams|
      invariant forall j :: 0 <= j < k ==> streams[j].id != streamId
    {
      k := k + 1;
    }
    assert k == FirstStream(streams, streamId);
    if k == |streams| { return Err(NotFound); }
    r := Ok((resources[i], streams[k]));
  }

  /** For well-formed refs, the store's string index and a search of the scan find the same resource. */
  lemma {:induction false} SearchesAgree(resources: seq<Resource>, target: ResourceRef)
    requires Ref.WellFormed(target) && forall r :: r in resources ==> Ref.WellFormed(r.ref)
    ensures Store.FirstWithRef(resources, Ref.String(target)) == FirstEqual(resources, target)
  {
    if resources != [] {
      Ref.EqualIffSameString(resources[0].ref, target);
      SearchesAgree(resources[1..], target);
    }
  }

  /** Store.Resource answers what GetResource's own search answers. */
  lemma IndexedLookupAgrees(db: Store.Db, target: ResourceRef)
    requires Store.Consistent(db) && Ref.WellFormed(target)
    requires forall id, r :: id in db.scans && r in db.scans[id].resources ==> Ref.WellFormed(r.ref)
    ensures Store.ResourceIn(db, Ref.String(target)) ==
      if CachedScanIn(db).None? then None
      else
        var resources := CachedScanIn(db).value.resources;
        var i := FirstEqual(resources, target);
        if i < |resources| then Some(resources[i]) else None
  {
    Store.IndexAgreesWithScan(db, Ref.String(target));
    if CachedScanIn(db).Some? {
      SearchesAgree(CachedScanIn(db).value.resources, target);
    }
  }
}
