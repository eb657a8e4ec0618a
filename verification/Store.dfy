/**
 internal/store: the cache database.

 The database is a value, so a transaction is a copy that is either assigned back (commit)
 or dropped (rollback). Times are nanoseconds; the tables hold whole seconds.
 */
module Store {
  import opened Wrappers
  import opened Api
  import Ref

  datatype StoreError = NotFound | ConstraintFailed | Unavailable | NoPackageKey

  datatype ImpactKey = ImpactKey(target: string, streamId: string, fromVersion: string, toVersion: string)

  datatype ListKey = ListKey(package: PackageKey, kind: VersionKind)

  datatype RangeKey = RangeKey(package: PackageKey, kind: VersionKind, fromVersion: string, toVersion: string)

  datatype Package = Package(system: string, name: string)

  datatype ListRow = ListRow(fetchedAt: int, list: VersionList)

  datatype ResolutionRow = ResolutionRow(registryUrl: string, fetchedAt: int)

  /** The tables of schema.sql; `sequence` is the AUTOINCREMENT high-water mark of scans. */
  datatype Db = Db(
    sequence: int,
    scans: map<int, ScanResponse>,
    resources: map<(int, string), Resource>,
    impacts: map<(int, ImpactKey), ImpactAssessment>,
    versionLists: map<ListKey, ListRow>,
    changeSets: map<RangeKey, ChangeSet>,
    resolutions: map<Package, ResolutionRow>)

  const EMPTY := Db(0, map[], map[], map[], map[], map[], map[])

  const SECOND := 1_000_000_000

  /** Time.Unix: whole seconds, rounded down. */
  function Unix(now: int): int { now / SECOND }

  /** time.Since(time.Unix(fetchedAt, 0)) > maxAge */
  predicate Expired(fetchedAt: int, now: int, maxAge: int) {
    now - fetchedAt * SECOND > maxAge
  }

  // ----- Queries -----

  ghost function AnyOf<T>(s: set<T>): (x: T)
    requires s != {}
    ensures x in s
  {
    var x :| x in s;
    x
  }

  lemma {:induction false} MaxExists(ids: set<int>)
    requires ids != {}
    ensures exists id :: id in ids && forall j :: j in ids ==> j <= id
  {
    var x := AnyOf(ids);
    if ids != {x} {
      MaxExists(ids - {x});
      var m :| m in ids - {x} && forall j :: j in ids - {x} ==> j <= m;
      var top := if x > m then x else m;
      forall j | j in ids ensures j <= top { assert j == x || j in ids - {x}; }
      assert top in ids;
    }
  }

  /** ORDER BY id DESC LIMIT 1 */
  function Newest(ids: set<int>): (r: Option<int>)
    ensures r.None? <==> ids == {}
    ensures r.Some? ==> r.value in ids && forall j :: j in ids ==> j <= r.value
  {
    if ids == {} then None
    else
      MaxExists(ids);
      var id :| id in ids && forall j :: j in ids ==> j <= id;
      Some(id)
  }

  function LatestScanIn(db: Db): Option<(int, ScanResponse)> {
    match Newest(db.scans.Keys)
    case None => None
    case Some(id) => Some((id, db.scans[id]))
  }

  /** The scans of the join that carry a row for the ref. */
  function ScansWithRef(db: Db, ref: string): set<int> {
    set id | id in db.scans && (id, ref) in db.resources
  }

  function ResourceIn(db: Db, ref: string): Option<Resource> {
    match Newest(ScansWithRef(db, ref))
    case None => None
    case Some(id) => Some(db.resources[(id, ref)])
  }

  function ScansWithImpact(db: Db, key: ImpactKey): set<int> {
    set id | id in db.scans && (id, key) in db.impacts
  }

  function ImpactIn(db: Db, key: ImpactKey): Option<ImpactAssessment> {
    match Newest(ScansWithImpact(db, key))
    case None => None
    case Some(id) => Some(db.impacts[(id, key)])
  }

  function ResolutionIn(table: map<Package, ResolutionRow>, p: Package, now: int, maxAge: int, failureMaxAge: int)
    : Option<string>
  {
    if p !in table then None
    else if Expired(table[p].fetchedAt, now, if table[p].registryUrl == "" then failureMaxAge else maxAge) then None
    else Some(table[p].registryUrl)
  }

  function VersionListIn(db: Db, key: ListKey, now: int, maxAge: int): Option<VersionList> {
    if key !in db.versionLists || Expired(db.versionLists[key].fetchedAt, now, maxAge) then None
    else Some(db.versionLists[key].list)
  }

  // ----- Updates -----

  /** A row of resources: the key that varies within a scan, and the stored resource. */
  datatype Row = Row(ref: string, resource: Resource)

  function Rows(resources: seq<Resource>): (rows: seq<Row>)
    ensures |rows| == |resources|
  {
    seq(|resources|, i requires 0 <= i < |resources| => Row(Ref.String(resources[i].ref), resources[i]))
  }

  function Table(id: int, rows: seq<Row>): map<(int, string), Resource> {
    if rows == [] then map[]
    else
      var last := rows[|rows| - 1];
      Table(id, rows[..|rows| - 1])[(id, last.ref) := last.resource]
  }

  ghost predicate HasRow(rows: seq<Row>, ref: string) {
    exists i :: 0 <= i < |rows| && rows[i].ref == ref
  }

  ghost predicate Unique(rows: seq<Row>) {
    forall i, j :: 0 <= i < j < |rows| ==> rows[i].ref != rows[j].ref
  }

  /** The primary key (scan_id, ref) of resources admits a scan only if its ref strings differ. */
  ghost predicate DistinctRefs(resources: seq<Resource>) { Unique(Rows(resources)) }

  /** DELETE FROM scans WHERE id <> ?, with the cascades declared in the schema. */
  function DeleteOtherScans(db: Db, id: int): Db {
    var gone := db.scans.Keys - {id};
    db.(scans := map k | k in db.scans && k !in gone :: db.scans[k],
        resources := map k | k in db.resources && k.0 !in gone :: db.resources[k],
        impacts := map k | k in db.impacts && k.0 !in gone :: db.impacts[k])
  }

  /** The database after a scan superseded whatever was there. */
  function Superseded(db: Db, scan: ScanResponse): Db {
    var id := db.sequence + 1;
    db.(sequence := id, scans := map[id := scan], resources := Table(id, Rows(scan.resources)), impacts := map[])
  }

  function ImpactKeyOf(a: ImpactAssessment): ImpactKey {
    ImpactKey(Ref.String(a.target), a.streamId, a.fromVersion, a.toVersion)
  }

  // ----- What every operation keeps -----

  /** Every row refers to the live scan, whose resource rows are exactly its resources. */
  ghost predicate Consistent(db: Db) {
    && db.sequence >= 0 && (db.sequence in db.scans <==> db.sequence > 0)
    && (forall id :: id in db.scans ==> id == db.sequence)
    && db.resources ==
      (if db.sequence in db.scans then Table(db.sequence, Rows(db.scans[db.sequence].resources)) else map[])
    && (db.sequence in db.scans ==> DistinctRefs(db.scans[db.sequence].resources))
    && (forall k :: k in db.impacts ==> k.0 in db.scans && k.1 == ImpactKeyOf(db.impacts[k]))
  }

  lemma {:induction false} TableDomain(id: int, rows: seq<Row>, scanId: int, ref: string)
    ensures (scanId, ref) in Table(id, rows) <==> scanId == id && HasRow(rows, ref)
  {
    if rows != [] {
      var front, last := rows[..|rows| - 1], rows[|rows| - 1];
      TableDomain(id, front, scanId, ref);
      assert HasRow(rows, ref) <==> HasRow(front, ref) || last.ref == ref by {
        assert forall i :: 0 <= i < |front| ==> rows[i] == front[i];
      }
    }
  }

  lemma {:induction false} TableValue(id: int, rows: seq<Row>, i: nat)
    requires Unique(rows) && i < |rows|
    ensures (id, rows[i].ref) in Table(id, rows) && Table(id, rows)[(id, rows[i].ref)] == rows[i].resource
  {
    if i < |rows| - 1 {
      TableValue(id, rows[..|rows| - 1], i);
    }
  }

  /** Every row belongs to the live scan. */
  lemma RowsAreLive(db: Db, scanId: int, ref: string)
    requires Consistent(db)
    ensures (scanId, ref) in db.resources ==> scanId in db.scans && scanId == db.sequence
  {
    if db.sequence in db.scans {
      TableDomain(db.sequence, Rows(db.scans[db.sequence].resources), scanId, ref);
    }
  }

  function Inserted(db: Db, scan: ScanResponse): Db {
    var id := db.sequence + 1;
    db.(sequence := id, scans := db.scans[id := scan], resources := db.resources + Table(id, Rows(scan.resources)))
  }

  /** An insert of the loop collides exactly with a row inserted before it for the same ref. */
  lemma InsertCollides(id: int, before: map<(int, string), Resource>, rows: seq<Row>, ref: string)
    requires (id, ref) !in before
    ensures (id, ref) in before + Table(id, rows) <==> HasRow(rows, ref)
  {
    TableDomain(id, rows, id, ref);
  }

  lemma TableStep(id: int, rows: seq<Row>, i: nat, others: map<(int, string), Resource>)
    requires i < |rows|
    ensures (others + Table(id, rows[..i]))[(id, rows[i].ref) := rows[i].resource] == others + Table(id, rows[..i + 1])
  {
    assert rows[..i + 1][..i] == rows[..i];
  }

  lemma UniqueStep(rows: seq<Row>, i: nat)
    requires i < |rows| && Unique(rows[..i])
    ensures if HasRow(rows[..i], rows[i].ref) then !Unique(rows) else Unique(rows[..i + 1])
  {
    if HasRow(rows[..i], rows[i].ref) {
      var j :| 0 <= j < i && rows[..i][j].ref == rows[i].ref;
      assert rows[j].ref == rows[i].ref;
    } else {
      var more := rows[..i + 1];
      forall j, k | 0 <= j < k < |more| ensures more[j].ref != more[k].ref {
        assert rows[..i][j] == more[j];
        if k < i { assert rows[..i][k] == more[k]; }
      }
    }
  }

  lemma SupersededConsistent(db: Db, scan: ScanResponse)
    requires db.sequence >= 0 && DistinctRefs(scan.resources)
    ensures Consistent(Superseded(db, scan))
  {
    var after := Superseded(db, scan);
    assert after.sequence == db.sequence + 1;
    assert after.scans == map[after.sequence := scan] && after.scans[after.sequence] == scan;
    assert after.scans != map[];
    assert after.impacts == map[];
  }

  /** Nothing of an old row survives, and of the new scan's rows nothing is lost. */
  lemma CascadeKeepsRow(db: Db, scan: ScanResponse, scanId: int, ref: string)
    requires Consistent(db)
    ensures var after, kept := DeleteOtherScans(Inserted(db, scan), db.sequence + 1).resources,
                                Table(db.sequence + 1, Rows(scan.resources));
      && ((scanId, ref) in after <==> (scanId, ref) in kept)
      && ((scanId, ref) in after ==> after[(scanId, ref)] == kept[(scanId, ref)])
  {
    RowsAreLive(db, scanId, ref);
    TableDomain(db.sequence + 1, Rows(scan.resources), scanId, ref);
  }

  lemma CascadeKeepsRows(db: Db, scan: ScanResponse)
    requires Consistent(db)
    ensures DeleteOtherScans(Inserted(db, scan), db.sequence + 1).resources ==
      Table(db.sequence + 1, Rows(scan.resources))
  {
    var after, kept := DeleteOtherScans(Inserted(db, scan), db.sequence + 1).resources,
                        Table(db.sequence + 1, Rows(scan.resources));
    forall k: (int, string)
      ensures (k in after <==> k in kept) && (k in after ==> after[k] == kept[k])
    {
      CascadeKeepsRow(db, scan, k.0, k.1);
    }
  }

  /** The cascade leaves exactly the new scan, its rows, and no assessment. */
  lemma CascadeClears(db: Db, scan: ScanResponse)
    requires Consistent(db)
    ensures DeleteOtherScans(Inserted(db, scan), db.sequence + 1) == Superseded(db, scan)
  {
    var id := db.sequence + 1;
    var after := DeleteOtherScans(Inserted(db, scan), id);
    assert after.scans == map[id := scan];
    assert after.impacts == map[];
    CascadeKeepsRows(db, scan);
  }

  /** The inserts of SaveScan's transaction; `fault` is the number of the failing statement. */
  method InsertRows(id: int, before: map<(int, string), Resource>, resources: seq<Resource>, fault: nat)
    returns (r: Result<map<(int, string), Resource>, StoreError>)
    requires forall ref :: (id, ref) !in before
    ensures r.Ok? <==> DistinctRefs(resources) && fault >= |resources|
    ensures r.Ok? ==> r.value == before + Table(id, Rows(resources))
  {
    ghost var rows := Rows(resources);
    var table := before;
    var i := 0;
    while i < |resources|
      invariant 0 <= i <= |resources| && fault >= i
      invariant Unique(rows[..i])
      invariant table == before + Table(id, rows[..i])
    {
      if fault == i { return Err(Unavailable); }
      var key := (id, Ref.String(resources[i].ref));
      assert rows[i] == Row(key.1, resources[i]);
      InsertCollides(id, before, rows[..i], key.1);
      UniqueStep(rows, i);
      if key in table { return Err(ConstraintFailed); }
      TableStep(id, rows, i, before);
      table := table[key := resources[i]];
      i := i + 1;
    }
    assert rows[..i] == rows;
    r := Ok(table);
  }

  // ----- Operations as steps -----

  datatype Op =
    | OpSaveScan(scan: ScanResponse, fault: nat)
    | OpPutImpact(scanId: int, assessment: ImpactAssessment)
    | OpOther(versionLists: map<ListKey, ListRow>, changeSets: map<RangeKey, ChangeSet>,
              resolutions: map<Package, ResolutionRow>)

  /** What one operation does to the database; a failed one does nothing. */
  ghost function Apply(db: Db, op: Op): Db {
    match op
    case OpSaveScan(scan, fault) =>
      if DistinctRefs(scan.resources) && fault > |scan.resources| + 2 then Superseded(db, scan) else db
    case OpPutImpact(scanId, a) =>
      if scanId in db.scans then db.(impacts := db.impacts[(scanId, ImpactKeyOf(a)) := a]) else db
    case OpOther(versionLists, changeSets, resolutions) =>
      db.(versionLists := versionLists, changeSets := changeSets, resolutions := resolutions)
  }

  /** The other tables take no part in consistency. */
  lemma OtherTablesIndependent(db: Db, versionLists: map<ListKey, ListRow>, changeSets: map<RangeKey, ChangeSet>,
                               resolutions: map<Package, ResolutionRow>)
    ensures Consistent(db) <==>
      Consistent(db.(versionLists := versionLists, changeSets := changeSets, resolutions := resolutions))
  {
  }

  lemma SequenceGrows(db: Db, op: Op)
    ensures db.sequence <= Apply(db, op).sequence <= db.sequence + 1
  {
  }

  /** A handle to the cache database. `served` tells whether the driver carries a statement out. */
  class Store {
    var db: Db

    ghost predicate Valid() reads this { Consistent(db) }

    constructor ()
      ensures Valid() && db == EMPTY
    {
      db := EMPTY;
    }

    /** Statement number `fault` of the transaction fails, if it gets that far. */
    method SaveScan(scan: ScanResponse, fault: nat) returns (r: Result<int, StoreError>)
      requires Valid()
      modifies this
      ensures Valid()
      ensures r.Ok? <==> DistinctRefs(scan.resources) && fault > |scan.resources| + 2
      ensures r.Ok? ==> r.value == old(db).sequence + 1 && db == Superseded(old(db), scan)
      ensures r.Err? ==> db == old(db)
      ensures db == Apply(old(db), OpSaveScan(scan, fault))
    {
      if fault == 0 { return Err(Unavailable); }
      var id := db.sequence + 1;
      forall ref ensures (id, ref) !in db.resources { RowsAreLive(db, id, ref); }
      var rows := InsertRows(id, db.resources, scan.resources, fault - 1);
      if rows.Err? { return Err(rows.error); }
      var tx := db.(sequence := id, scans := db.scans[id := scan], resources := rows.value);
      if fault == |scan.resources| + 1 { return Err(Unavailable); }
      assert tx == Inserted(db, scan);
      tx := DeleteOtherScans(tx, id);
      if fault == |scan.resources| + 2 { return Err(Unavailable); }
      CascadeClears(db, scan);
      SupersededConsistent(db, scan);
      db := tx;
      r := Ok(id);
    }

    method LatestScan(served: bool) returns (r: Result<(int, ScanResponse), StoreError>)
      ensures r == if !served then Err(Unavailable)
                   else if LatestScanIn(db).None? then Err(NotFound) else Ok(LatestScanIn(db).value)
    {
      if !served { return Err(Unavailable); }
      var newest := Newest(db.scans.Keys);
      if newest.None? { return Err(NotFound); }
      r := Ok((newest.value, db.scans[newest.value]));
    }

    /** The lookup by string key finds the resource whose ref has that string form. */
    method Resource(ref: ResourceRef, served: bool) returns (r: Result<Resource, StoreError>)
      ensures var hit := ResourceIn(db, Ref.String(ref));
        r == if !served then Err(Unavailable) else if hit.None? then Err(NotFound) else Ok(hit.value)
    {
      if !served { return Err(Unavailable); }
      var key := Ref.String(ref);
      var newest := Newest(ScansWithRef(db, key));
      if newest.None? { return Err(NotFound); }
      r := Ok(db.resources[(newest.value, key)]);
    }

    method PutImpact(scanId: int, a: ImpactAssessment, served: bool) returns (r: Result<(), StoreError>)
      requires Valid()
      modifies this
      ensures Valid()
      ensures r.Ok? <==> served && scanId in old(db).scans
      ensures db == if served then Apply(old(db), OpPutImpact(scanId, a)) else old(db)
    {
      if !served { return Err(Unavailable); }
      if scanId !in db.scans { return Err(ConstraintFailed); }
      db := db.(impacts := db.impacts[(scanId, ImpactKeyOf(a)) := a]);
      r := Ok(());
    }

    method Impact(target: ResourceRef, streamId: string, fromVersion: string, toVersion: string, served: bool)
      returns (r: Result<ImpactAssessment, StoreError>)
      ensures var hit := ImpactIn(db, ImpactKey(Ref.String(target), streamId, fromVersion, toVersion));
        r == if !served then Err(Unavailable) else if hit.None? then Err(NotFound) else Ok(hit.value)
    {
      if !served { return Err(Unavailable); }
      var key := ImpactKey(Ref.String(target), streamId, fromVersion, toVersion);
      var newest := Newest(ScansWithImpact(db, key));
      if newest.None? { return Err(NotFound); }
      r := Ok(db.impacts[(newest.value, key)]);
    }

    method PutVersionList(key: ListKey, list: VersionList, now: int, served: bool) returns (r: Result<(), StoreError>)
      modifies this`db
      ensures r == if served then Ok(()) else Err(Unavailable)
      ensures db == if !served then old(db) else
        old(db).(versionLists := old(db).versionLists[key := ListRow(Unix(now), list)])
    {
      if !served { return Err(Unavailable); }
      db := db.(versionLists := db.versionLists[key := ListRow(Unix(now), list)]);
      r := Ok(());
    }

    method VersionList(key: ListKey, now: int, maxAge: int, served: bool) returns (r: Result<VersionList, StoreError>)
      ensures var hit := VersionListIn(db, key, now, maxAge);
        r == if !served then Err(Unavailable) else if hit.None? then Err(NotFound) else Ok(hit.value)
    {
      if !served { return Err(Unavailable); }
      if key !in db.versionLists { return Err(NotFound); }
      var row := db.versionLists[key];
      if Expired(row.fetchedAt, now, maxAge) { return Err(NotFound); }
      r := Ok(row.list);
    }

    /** An empty URL records that resolution was attempted and failed. */
    method PutResolution(p: Package, registryUrl: string, now: int, served: bool) returns (r: Result<(), StoreError>)
      modifies this`db
      ensures r == if served then Ok(()) else Err(Unavailable)
      ensures db == if !served then old(db) else
        old(db).(resolutions := old(db).resolutions[p := ResolutionRow(registryUrl, Unix(now))])
    {
      if !served { return Err(Unavailable); }
      db := db.(resolutions := db.resolutions[p := ResolutionRow(registryUrl, Unix(now))]);
      r := Ok(());
    }

    method Resolution(p: Package, now: int, maxAge: int, failureMaxAge: int, served: bool)
      returns (r: Result<string, StoreError>)
      ensures var hit := ResolutionIn(db.resolutions, p, now, maxAge, failureMaxAge);
        r == if !served then Err(Unavailable) else if hit.None? then Err(NotFound) else Ok(hit.value)
    {
      if !served { return Err(Unavailable); }
      if p !in db.resolutions { return Err(NotFound); }
      var row := db.resolutions[p];
      var age := maxAge;
      if row.registryUrl == "" {
        age := failureMaxAge;
      }
      if Expired(row.fetchedAt, now, age) { return Err(NotFound); }
      r := Ok(row.registryUrl);
    }

    method PutChangeSet(cs: ChangeSet, served: bool) returns (r: Result<(), StoreError>)
      modifies this`db
      ensures r.Ok? <==> cs.package.Some? && served
      ensures r.Ok? ==> db == old(db).(changeSets :=
        old(db).changeSets[RangeKey(cs.package.value, cs.kind, cs.fromVersion, cs.toVersion) := cs])
      ensures r.Err? ==> db == old(db)
    {
      if cs.package.None? { return Err(NoPackageKey); }
      if !served { return Err(Unavailable); }
      var key := RangeKey(cs.package.value, cs.kind, cs.fromVersion, cs.toVersion);
      db := db.(changeSets := db.changeSets[key := cs]);
      r := Ok(());
    }

    method ChangeSet(key: RangeKey, served: bool) returns (r: Result<ChangeSet, StoreError>)
      ensures r == if !served then Err(Unavailable)
                   else if key !in db.changeSets then Err(NotFound) else Ok(db.changeSets[key])
    {
      if !served { return Err(Unavailable); }
      if key !in db.changeSets { return Err(NotFound); }
      r := Ok(db.changeSets[key]);
    }
  }

  // ----- Reads agree with the live scan -----

  /** At most one scan is live, and AUTOINCREMENT allocates what max(id) + 1 would. */
  lemma OneLiveScan(db: Db)
    requires Consistent(db)
    ensures forall i, j :: i in db.scans && j in db.scans ==> i == j
    ensures if Newest(db.scans.Keys).Some? then Newest(db.scans.Keys) == Some(db.sequence) else db.sequence == 0
  {
    assert db.sequence > 0 ==> db.sequence in db.scans.Keys;
  }

  /** After a save the saved scan is the latest. */
  lemma SupersededIsLatest(db: Db, scan: ScanResponse)
    ensures LatestScanIn(Superseded(db, scan)) == Some((db.sequence + 1, scan))
  {
    assert Superseded(db, scan).scans.Keys == {db.sequence + 1};
  }

  /** An assessment is only ever read from the live scan. */
  lemma ImpactIsLive(db: Db, key: ImpactKey)
    requires Consistent(db)
    ensures ImpactIn(db, key).None? ==> (db.sequence, key) !in db.impacts
    ensures ImpactIn(db, key).Some? ==>
      && db.sequence in db.scans && (db.sequence, key) in db.impacts
      && ImpactIn(db, key).value == db.impacts[(db.sequence, key)] && ImpactKeyOf(ImpactIn(db, key).value) == key
  {
    if (db.sequence, key) in db.impacts {
      assert db.sequence in ScansWithImpact(db, key);
    }
  }

  /** The position of the first resource with the given string form, or |resources|. */
  function FirstWithRef(resources: seq<Resource>, ref: string): (i: nat)
    ensures i <= |resources| && forall j :: 0 <= j < i ==> Ref.String(resources[j].ref) != ref
    ensures i < |resources| ==> Ref.String(resources[i].ref) == ref
  {
    if resources == [] || Ref.String(resources[0].ref) == ref then 0
    else 1 + FirstWithRef(resources[1..], ref)
  }

  function Search(resources: seq<Resource>, ref: string): Option<Resource> {
    var i := FirstWithRef(resources, ref);
    if i < |resources| then Some(resources[i]) else None
  }

  /** The index finds in the live scan exactly what a search through it finds. */
  lemma IndexAgreesWithScan(db: Db, ref: string)
    requires Consistent(db)
    ensures ResourceIn(db, ref) ==
      if LatestScanIn(db).None? then None else Search(LatestScanIn(db).value.1.resources, ref)
  {
    OneLiveScan(db);
    var ids := ScansWithRef(db, ref);
    if db.sequence in db.scans {
      var resources := db.scans[db.sequence].resources;
      var i := FirstWithRef(resources, ref);
      TableDomain(db.sequence, Rows(resources), db.sequence, ref);
      if i < |resources| {
        assert Rows(resources)[i] == Row(ref, resources[i]);
        TableValue(db.sequence, Rows(resources), i);
        assert db.sequence in ids;
      } else {
        assert forall id :: id in ids ==> id == db.sequence;
        assert ids == {};
      }
    } else {
      assert ids == {};
    }
  }

  // ----- Runs -----

  ghost function Run(db: Db, ops: seq<Op>): Db
    decreases ops
  {
    if ops == [] then db else Run(Apply(db, ops[0]), ops[1..])
  }

  /** The ids under which a run committed scans, in order. */
  ghost function SavedIds(db: Db, ops: seq<Op>): seq<int>
    decreases ops
  {
    if ops == [] then []
    else
      var next := Apply(db, ops[0]);
      (if next.sequence != db.sequence then [next.sequence] else []) + SavedIds(next, ops[1..])
  }

  lemma ApplyConsistent(db: Db, op: Op)
    requires Consistent(db)
    ensures Consistent(Apply(db, op))
  {
    if op.OpSaveScan? && DistinctRefs(op.scan.resources) {
      SupersededConsistent(db, op.scan);
    }
  }

  /** Every run keeps the tables consistent, and never gives two committed scans the same id. */
  lemma {:induction false} RunKeeps(db: Db, ops: seq<Op>)
    requires Consistent(db)
    ensures Consistent(Run(db, ops)) && Run(db, ops).sequence >= db.sequence
    ensures forall i :: 0 <= i < |SavedIds(db, ops)| ==> db.sequence < SavedIds(db, ops)[i] <= Run(db, ops).sequence
    ensures forall i, j :: 0 <= i < j < |SavedIds(db, ops)| ==> SavedIds(db, ops)[i] < SavedIds(db, ops)[j]
    decreases ops
  {
    if ops != [] {
      ApplyConsistent(db, ops[0]);
      SequenceGrows(db, ops[0]);
      RunKeeps(Apply(db, ops[0]), ops[1..]);
    }
  }
}
