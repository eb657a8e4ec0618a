/**
 internal/server/impact.go: AssessImpact as the sequence of store steps around the agent
 call, and the safety of any number of such calls interleaved with scans.
 */
module Impact {
  import opened Wrappers
  import opened Api
  import Ref
  import S = Store
  import Server

  datatype Request = Request(ref: ResourceRef, streamId: string, changeSet: Option<ChangeSet>)

  datatype AssessRequest = AssessRequest(
    target: ResourceRef,
    streamId: string,
    fromVersion: string,
    toVersion: string,
    changeSet: ChangeSet,
    inventory: ScanResponse)

  /** What the agent finds for a request in a given state of the cluster and the model; it may fail. */
  type Agent = (AssessRequest, nat) -> Option<string>

  /** What an AssessImpact call has determined so far. */
  datatype Phase =
    | Idle
    | Opened(request: Request, streamId: string)
    | Resolved(request: Request, streamId: string, changes: ChangeSet)
    | Inventoried(request: Request, streamId: string, changes: ChangeSet, scanId: int, inventory: ScanResponse)
    | Missed(request: Request, streamId: string, changes: ChangeSet, scanId: int, inventory: ScanResponse)
    | Assessed(request: Request, streamId: string, changes: ChangeSet, scanId: int, inventory: ScanResponse,
               assessment: ImpactAssessment)
    | Ready(request: Request, result: ImpactAssessment, cached: bool)
    | Sent(request: Request, result: ImpactAssessment, cached: bool)
    | Failed

  /** What the world decides at a step. */
  datatype Input =
    | Open(request: Request, served: bool)
    | Resolve(resolved: Option<ChangeSet>)  // the outcome of resolveChangeSet, where it runs
    | Continue(served: bool, world: nat)

  /** The primary stream where none is named; a failed lookup leaves it unnamed. */
  function DefaultStream(db: S.Db, request: Request, served: bool): string {
    if request.streamId != "" then request.streamId
    else if !served then ""
    else match Server.StreamIn(Server.CachedScanIn(db), request.ref, "")
      case Ok((_, stream)) => stream.id
      case Err(_) => ""
  }

  /** The identity fields are the server's, whatever the agent echoed back. */
  function Stamped(req: AssessRequest, findings: string): ImpactAssessment {
    ImpactAssessment(req.target, req.streamId, req.fromVersion, req.toVersion, findings)
  }

  function RequestOf(p: Phase): AssessRequest
    requires p.Missed?
  {
    AssessRequest(p.request.ref, p.streamId, p.changes.fromVersion, p.changes.toVersion, p.changes, p.inventory)
  }

  /** The cache key of what the call was asked for. */
  function KeyFor(p: Phase): S.ImpactKey
    requires p.Inventoried? || p.Missed? || p.Assessed?
  {
    S.ImpactKey(Ref.String(p.request.ref), p.streamId, p.changes.fromVersion, p.changes.toVersion)
  }

  /** One atomic step of a call: at most one statement reaches the store, and the send is a step of its own. */
  function Advance(agent: Agent, db: S.Db, p: Phase, input: Input): (S.Db, Phase) {
    match (p, input)
    case (Idle, Open(request, served)) => (db, Opened(request, DefaultStream(db, request, served)))
    case (Opened(request, streamId), Resolve(resolved)) =>
      (db, if request.changeSet.Some? then Resolved(request, streamId, request.changeSet.value)
           else if resolved.Some? then Resolved(request, streamId, resolved.value) else Failed)
    case (Resolved(request, streamId, changes), Continue(served, _)) =>
      var latest := S.LatestScanIn(db);
      (db, if !served || latest.None? then Failed
           else Inventoried(request, streamId, changes, latest.value.0, latest.value.1))
    case (Inventoried(request, streamId, changes, scanId, inventory), Continue(served, _)) =>
      var hit := S.ImpactIn(db, KeyFor(p));
      (db, if !served then Failed
           else if hit.Some? then Ready(request, hit.value, true)
           else Missed(request, streamId, changes, scanId, inventory))
    case (Missed(request, streamId, changes, scanId, inventory), Continue(_, world)) =>
      var findings := agent(RequestOf(p), world);
      (db, if findings.None? then Failed
           else Assessed(request, streamId, changes, scanId, inventory, Stamped(RequestOf(p), findings.value)))
    case (Assessed(request, _, _, scanId, _, a), Continue(served, _)) =>
      if served && scanId in db.scans
      then (db.(impacts := db.impacts[(scanId, S.ImpactKeyOf(a)) := a]), Ready(request, a, false))
      else (db, Failed)
    case (Ready(request, result, cached), Continue(served, _)) =>
      (db, if served then Sent(request, result, cached) else Failed)
    case _ => (db, p)
  }

  /** One AssessImpact call in progress. */
  class AssessCall {
    var phase: Phase

    constructor ()
      ensures phase == Idle
    {
      phase := Idle;
    }

    method Step(store: S.Store, agent: Agent, input: Input)
      requires store.Valid()
      modifies this, store
      ensures store.Valid()
      ensures (store.db, phase) == Advance(agent, old(store.db), old(phase), input)
    {
      match (phase, input)
      case (Idle, Open(request, served)) =>
        var streamId := request.streamId;
        if streamId == "" {
          var primary := Server.ResourceStream(store, request.ref, "", served);
          if primary.Ok? { streamId := primary.value.1.id; }
        }
        phase := Opened(request, streamId);
      case (Opened(request, streamId), Resolve(resolved)) =>
        var changes := if request.changeSet.Some? then request.changeSet else resolved;
        phase := if changes.Some? then Resolved(request, streamId, changes.value) else Failed;
      case (Resolved(request, streamId, changes), Continue(served, _)) =>
        var latest := store.LatestScan(served);
        match latest {
          case Ok((id, scan)) => phase := Inventoried(request, streamId, changes, id, scan);
          case Err(_) => phase := Failed;
        }
      case (Inventoried(request, streamId, changes, scanId, inventory), Continue(served, _)) =>
        var cached := store.Impact(request.ref, streamId, changes.fromVersion, changes.toVersion, served);
        match cached {
          case Ok(a) => phase := Ready(request, a, true);
          case Err(e) =>
            phase := if e.NotFound? then Missed(request, streamId, changes, scanId, inventory) else Failed;
        }
      case (Missed(request, streamId, changes, scanId, inventory), Continue(_, world)) =>
        var findings := agent(RequestOf(phase), world);
        phase := if findings.None? then Failed
                 else Assessed(request, streamId, changes, scanId, inventory,
                               Stamped(RequestOf(phase), findings.value));
      case (Assessed(request, _, _, scanId, _, assessment), Continue(served, _)) =>
        var put := store.PutImpact(scanId, assessment, served);
        phase := if put.Ok? then Ready(request, assessment, false) else Failed;
      case (Ready(request, result, cached), Continue(served, _)) =>
        phase := if served then Sent(request, result, cached) else Failed;
      case _ =>
    }
  }

  // ----- Calls and scans, interleaved -----

  /** The database, every scan ever committed, and the calls in progress. */
  datatype System = System(db: S.Db, committed: map<int, ScanResponse>, calls: map<int, Phase>)

  datatype Event =
    | ScanSaved(scan: ScanResponse, fault: nat)
    | CallStep(call: int, input: Input)
    | OtherWrites(versionLists: map<S.ListKey, S.ListRow>, changeSets: map<S.RangeKey, ChangeSet>,
                  resolutions: map<S.Package, S.ResolutionRow>)

  const INITIAL := System(S.EMPTY, map[], map[])

  function PhaseOf(sys: System, call: int): Phase {
    if call in sys.calls then sys.calls[call] else Idle
  }

  ghost function Next(agent: Agent, sys: System, e: Event): System {
    match e
    case ScanSaved(scan, fault) =>
      var db := S.Apply(sys.db, S.OpSaveScan(scan, fault));
      var committed := if db.sequence == sys.db.sequence then sys.committed else sys.committed[db.sequence := scan];
      System(db, committed, sys.calls)
    case CallStep(call, input) =>
      var (db, phase) := Advance(agent, sys.db, PhaseOf(sys, call), input);
      System(db, sys.committed, sys.calls[call := phase])
    case OtherWrites(versionLists, changeSets, resolutions) =>
      sys.(db := S.Apply(sys.db, S.OpOther(versionLists, changeSets, resolutions)))
  }

  ghost function RunFrom(agent: Agent, sys: System, events: seq<Event>): System
    decreases events
  {
    if events == [] then sys else RunFrom(agent, Next(agent, sys, events[0]), events[1..])
  }

  /** The assessment is what the agent found in this inventory for a change set of its range, target and stream. */
  ghost predicate ComputedFrom(agent: Agent, a: ImpactAssessment, inventory: ScanResponse) {
    exists req, world ::
      && agent(req, world) == Some(a.findings) && a == Stamped(req, a.findings)
      && req.inventory == inventory
      && req.fromVersion == req.changeSet.fromVersion && req.toVersion == req.changeSet.toVersion
  }

  /** The assessment was computed from an inventory that was saved at some time. */
  ghost predicate Founded(agent: Agent, committed: map<int, ScanResponse>, a: ImpactAssessment) {
    exists id :: id in committed && ComputedFrom(agent, a, committed[id])
  }

  ghost predicate PhaseSound(agent: Agent, committed: map<int, ScanResponse>, p: Phase) {
    match p
    case Inventoried(_, _, _, scanId, inventory) => scanId in committed && committed[scanId] == inventory
    case Missed(_, _, _, scanId, inventory) => scanId in committed && committed[scanId] == inventory
    case Assessed(_, _, _, scanId, inventory, a) =>
      scanId in committed && committed[scanId] == inventory && ComputedFrom(agent, a, inventory)
        && S.ImpactKeyOf(a) == KeyFor(p)
    case Ready(_, result, _) => Founded(agent, committed, result)
    case Sent(_, result, _) => Founded(agent, committed, result)
    case _ => true
  }

  ghost predicate Safe(agent: Agent, sys: System) {
    && S.Consistent(sys.db)
    && (forall id :: id in sys.committed ==> id <= sys.db.sequence)
    && (forall id :: id in sys.db.scans ==> id in sys.committed && sys.committed[id] == sys.db.scans[id])
    && (forall k :: k in sys.db.impacts ==>
         k.0 in sys.committed && ComputedFrom(agent, sys.db.impacts[k], sys.committed[k.0]))
    && (forall c :: c in sys.calls ==> PhaseSound(agent, sys.committed, sys.calls[c]))
  }

  lemma AdvanceSound(agent: Agent, sys: System, p: Phase, input: Input)
    requires Safe(agent, sys) && PhaseSound(agent, sys.committed, p)
    ensures PhaseSound(agent, sys.committed, Advance(agent, sys.db, p, input).1)
  {
    if p.Inventoried? && input.Continue? {
      S.ImpactIsLive(sys.db, KeyFor(p));
    }
    if p.Missed? && input.Continue? {
      var findings := agent(RequestOf(p), input.world);
      if findings.Some? {
        assert ComputedFrom(agent, Stamped(RequestOf(p), findings.value), p.inventory);
      }
    }
  }

  /** The only write a call makes is the upsert of its own assessment, under its live scan. */
  lemma AdvanceWrites(agent: Agent, db: S.Db, p: Phase, input: Input)
    ensures
      var (db', q) := Advance(agent, db, p, input);
      db' == db || (p.Assessed? && p.scanId in db.scans && q == Ready(p.request, p.assessment, false)
        && db' == S.Apply(db, S.OpPutImpact(p.scanId, p.assessment)))
  {
  }

  lemma CallStepSafe(agent: Agent, sys: System, call: int, input: Input)
    requires Safe(agent, sys)
    ensures Safe(agent, Next(agent, sys, CallStep(call, input)))
  {
    var p := PhaseOf(sys, call);
    AdvanceSound(agent, sys, p, input);
    AdvanceWrites(agent, sys.db, p, input);
    var db := Advance(agent, sys.db, p, input).0;
    if db != sys.db {
      S.ApplyConsistent(sys.db, S.OpPutImpact(p.scanId, p.assessment));
    }
  }

  lemma SoundLater(agent: Agent, committed: map<int, ScanResponse>, p: Phase, id: int, scan: ScanResponse)
    requires id !in committed && PhaseSound(agent, committed, p)
    ensures PhaseSound(agent, committed[id := scan], p)
  {
    if p.Ready? || p.Sent? {
      var origin :| origin in committed && ComputedFrom(agent, p.result, committed[origin]);
      assert committed[id := scan][origin] == committed[origin];
    }
  }

  lemma ScanSavedSafe(agent: Agent, sys: System, scan: ScanResponse, fault: nat)
    requires Safe(agent, sys)
    ensures Safe(agent, Next(agent, sys, ScanSaved(scan, fault)))
  {
    var next := Next(agent, sys, ScanSaved(scan, fault));
    S.ApplyConsistent(sys.db, S.OpSaveScan(scan, fault));
    if next.db != sys.db {
      assert next.db == S.Superseded(sys.db, scan);
      assert next.db.sequence !in sys.committed;
      forall c | c in next.calls ensures PhaseSound(agent, next.committed, next.calls[c]) {
        SoundLater(agent, sys.committed, sys.calls[c], next.db.sequence, scan);
      }
    }
  }

  lemma NextSafe(agent: Agent, sys: System, e: Event)
    requires Safe(agent, sys)
    ensures Safe(agent, Next(agent, sys, e))
  {
    match e
    case ScanSaved(scan, fault) => ScanSavedSafe(agent, sys, scan, fault);
    case CallStep(call, input) => CallStepSafe(agent, sys, call, input);
    case OtherWrites(_, _, _) =>
  }

  /** Every interleaving of any number of calls with scans is safe. */
  lemma {:induction false} RunSafe(agent: Agent, sys: System, events: seq<Event>)
    requires Safe(agent, sys)
    ensures Safe(agent, RunFrom(agent, sys, events))
    decreases events
  {
    if events != [] {
      NextSafe(agent, sys, events[0]);
      RunSafe(agent, Next(agent, sys, events[0]), events[1..]);
    }
  }

  /** In every reachable state, what a cached read returns was computed from the live inventory. */
  lemma ReadsAreCurrent(agent: Agent, events: seq<Event>, key: S.ImpactKey)
    ensures
      var db := RunFrom(agent, INITIAL, events).db;
      var hit := S.ImpactIn(db, key);
      hit.Some? ==>
        && S.ImpactKeyOf(hit.value) == key
        && S.LatestScanIn(db).Some? && ComputedFrom(agent, hit.value, S.LatestScanIn(db).value.1)
  {
    RunSafe(agent, INITIAL, events);
    var db := RunFrom(agent, INITIAL, events).db;
    S.ImpactIsLive(db, key);
    S.OneLiveScan(db);
  }

  lemma ResultIsCurrent(agent: Agent, sys: System, p: Phase, input: Input)
    requires Safe(agent, sys) && PhaseSound(agent, sys.committed, p) && !p.Ready?
    requires Advance(agent, sys.db, p, input).1.Ready?
    ensures
      var (db, q) := Advance(agent, sys.db, p, input);
      && S.LatestScanIn(db).Some?
      && ComputedFrom(agent, q.result, S.LatestScanIn(db).value.1)
      && S.ImpactIn(db, S.ImpactKeyOf(q.result)) == Some(q.result)
      && (p.Inventoried? || p.Assessed?) && S.ImpactKeyOf(q.result) == KeyFor(p)
      && (!q.cached ==> p.Assessed? && p.scanId == S.LatestScanIn(sys.db).value.0)
  {
    S.OneLiveScan(sys.db);
    if p.Inventoried? {
      S.ImpactIsLive(sys.db, KeyFor(p));
    } else {
      var db := S.Apply(sys.db, S.OpPutImpact(p.scanId, p.assessment));
      assert Advance(agent, sys.db, p, input) == (db, Ready(p.request, p.assessment, false));
      S.ApplyConsistent(sys.db, S.OpPutImpact(p.scanId, p.assessment));
      S.ImpactIsLive(db, S.ImpactKeyOf(p.assessment));
    }
  }

  /**
   When the store statement that settles a call's result has run, cached read or write, the result
   was computed from the inventory live at that moment, answers the ref, stream and range the call
   was about, and is what the store then serves for that key.
   */
  lemma ResultsAreCurrent(agent: Agent, events: seq<Event>, call: int, input: Input)
    ensures
      var before := RunFrom(agent, INITIAL, events);
      var after := Next(agent, before, CallStep(call, input));
      var p, q := PhaseOf(before, call), PhaseOf(after, call);
      !p.Ready? && q.Ready? ==>
        && S.LatestScanIn(after.db).Some?
        && ComputedFrom(agent, q.result, S.LatestScanIn(after.db).value.1)
        && S.ImpactIn(after.db, S.ImpactKeyOf(q.result)) == Some(q.result)
        && (p.Inventoried? || p.Assessed?) && S.ImpactKeyOf(q.result) == KeyFor(p)
        && (!q.cached ==> p.Assessed? && p.scanId == S.LatestScanIn(before.db).value.0)
  {
    var before := RunFrom(agent, INITIAL, events);
    RunSafe(agent, INITIAL, events);
    if !PhaseOf(before, call).Ready? && Advance(agent, before.db, PhaseOf(before, call), input).1.Ready? {
      ResultIsCurrent(agent, before, PhaseOf(before, call), input);
    }
  }

  // ----- Between that statement and the send -----

  /** The event commits a scan. */
  ghost predicate Commits(e: Event) {
    e.ScanSaved? && S.DistinctRefs(e.scan.resources) && e.fault > |e.scan.resources| + 2
  }

  /** The assessment an event stores under the key, if it does. */
  ghost function PutBy(sys: System, e: Event, key: S.ImpactKey): Option<ImpactAssessment> {
    if e.CallStep? && e.input.Continue? && e.input.served && PhaseOf(sys, e.call).Assessed?
       && PhaseOf(sys, e.call).scanId in sys.db.scans && S.ImpactKeyOf(PhaseOf(sys, e.call).assessment) == key
    then Some(PhaseOf(sys, e.call).assessment) else None
  }

  /** The assessment a run stores last under the key, or the given one if it stores none. */
  ghost function LastPut(agent: Agent, sys: System, events: seq<Event>, key: S.ImpactKey, a: ImpactAssessment)
    : ImpactAssessment
    decreases events
  {
    if events == [] then a
    else
      var put := PutBy(sys, events[0], key);
      LastPut(agent, Next(agent, sys, events[0]), events[1..], key, if put.Some? then put.value else a)
  }

  /** The live scan stays, and its row for the key, if there is one, holds what is put there. */
  ghost predicate KeepsRow(db: S.Db, put: Option<ImpactAssessment>, next: S.Db, key: S.ImpactKey) {
    var row := (db.sequence, key);
    && next.sequence == db.sequence && next.scans == db.scans
    && (row in db.impacts ==>
         row in next.impacts && next.impacts[row] == (if put.Some? then put.value else db.impacts[row]))
  }

  lemma AdvanceReads(agent: Agent, db: S.Db, p: Phase, input: Input)
    requires !(p.Assessed? && input.Continue? && input.served && p.scanId in db.scans)
    ensures Advance(agent, db, p, input).0 == db
  {
  }

  lemma CallKeepsRow(agent: Agent, sys: System, call: int, input: Input, key: S.ImpactKey)
    requires Safe(agent, sys)
    ensures KeepsRow(sys.db, PutBy(sys, CallStep(call, input), key), Next(agent, sys, CallStep(call, input)).db, key)
  {
    var p := PhaseOf(sys, call);
    if p.Assessed? && input.Continue? && input.served && p.scanId in sys.db.scans {
      assert p.scanId == sys.db.sequence;
      assert Advance(agent, sys.db, p, input).0 == S.Apply(sys.db, S.OpPutImpact(p.scanId, p.assessment));
    } else {
      AdvanceReads(agent, sys.db, p, input);
    }
  }

  /** A committing scan starts the next generation; any other event keeps the row. */
  lemma NextGeneration(agent: Agent, sys: System, e: Event, key: S.ImpactKey)
    requires Safe(agent, sys)
    ensures var next := Next(agent, sys, e);
      if Commits(e) then next.db.sequence == sys.db.sequence + 1 else KeepsRow(sys.db, PutBy(sys, e, key), next.db, key)
  {
    match e
    case CallStep(call, input) => CallKeepsRow(agent, sys, call, input, key);
    case ScanSaved(_, _) =>
    case OtherWrites(_, _, _) =>
  }

  lemma {:induction false} SequenceGrows(agent: Agent, sys: System, events: seq<Event>)
    ensures RunFrom(agent, sys, events).db.sequence >= sys.db.sequence
    decreases events
  {
    if events != [] {
      SequenceGrows(agent, Next(agent, sys, events[0]), events[1..]);
    }
  }

  /** A row stays exactly until a scan commits, and holds what was last put into it. */
  lemma {:induction false} RunGeneration(agent: Agent, sys: System, events: seq<Event>, key: S.ImpactKey)
    requires Safe(agent, sys) && (sys.db.sequence, key) in sys.db.impacts
    ensures
      var after := RunFrom(agent, sys, events).db;
      var row := (sys.db.sequence, key);
      if exists e :: e in events && Commits(e) then after.sequence > sys.db.sequence
      else
        && after.sequence == sys.db.sequence && after.scans == sys.db.scans && row in after.impacts
        && after.impacts[row] == LastPut(agent, sys, events, key, sys.db.impacts[row])
    decreases events
  {
    if events != [] {
      var e, next := events[0], Next(agent, sys, events[0]);
      NextGeneration(agent, sys, e, key);
      NextSafe(agent, sys, e);
      assert e in events && forall f :: f in events[1..] ==> f in events;
      if Commits(e) {
        SequenceGrows(agent, next, events[1..]);
      } else {
        RunGeneration(agent, next, events[1..], key);
        assert forall f :: f in events ==> f == e || f in events[1..];
      }
    }
  }

  /** A call that has its result only sends that, or fails to. */
  lemma {:induction false} ReadyStays(agent: Agent, sys: System, events: seq<Event>, call: int)
    requires var p := PhaseOf(sys, call); p.Ready? || p.Sent? || p.Failed?
    ensures
      var p, q := PhaseOf(sys, call), PhaseOf(RunFrom(agent, sys, events), call);
      q == p || (p.Ready? && (q == Sent(p.request, p.result, p.cached) || q == Failed))
    decreases events
  {
    if events != [] {
      ReadyStays(agent, Next(agent, sys, events[0]), events[1..], call);
    }
  }

  /** A run keeps the result live and served, up to newer ones for its key, exactly if it commits no scan. */
  ghost predicate StillCurrent(agent: Agent, settled: System, between: seq<Event>, result: ImpactAssessment) {
    var live, key := S.LatestScanIn(settled.db), S.ImpactKeyOf(result);
    var db := RunFrom(agent, settled, between).db;
    var quiet := !exists e :: e in between && Commits(e);
    && live.Some? && S.LatestScanIn(db).Some?
    && (quiet <==> S.LatestScanIn(db).value.0 == live.value.0)
    && (quiet <==> (live.value.0, key) in db.impacts)
    && (quiet ==>
         && S.LatestScanIn(db) == live && ComputedFrom(agent, result, live.value.1)
         && S.ImpactIn(db, key) == Some(LastPut(agent, settled, between, key, result)))
  }

  lemma LiveUntilCommit(agent: Agent, settled: System, between: seq<Event>, result: ImpactAssessment)
    requires Safe(agent, settled) && S.LatestScanIn(settled.db).Some?
    requires ComputedFrom(agent, result, S.LatestScanIn(settled.db).value.1)
    requires S.ImpactIn(settled.db, S.ImpactKeyOf(result)) == Some(result)
    ensures StillCurrent(agent, settled, between, result)
  {
    var key, db := S.ImpactKeyOf(result), RunFrom(agent, settled, between).db;
    S.OneLiveScan(settled.db);
    S.ImpactIsLive(settled.db, key);
    RunGeneration(agent, settled, between, key);
    RunSafe(agent, settled, between);
    S.OneLiveScan(db);
    S.ImpactIsLive(db, key);
  }

  lemma ReadySends(agent: Agent, sys: System, call: int, world: nat)
    requires PhaseOf(sys, call).Ready?
    ensures var p := PhaseOf(sys, call);
      PhaseOf(Next(agent, sys, CallStep(call, Continue(true, world))), call) == Sent(p.request, p.result, p.cached)
  {
  }

  lemma SettledIsSent(agent: Agent, settled: System, call: int, between: seq<Event>, world: nat)
    requires Safe(agent, settled) && PhaseOf(settled, call).Ready? && S.LatestScanIn(settled.db).Some?
    requires ComputedFrom(agent, PhaseOf(settled, call).result, S.LatestScanIn(settled.db).value.1)
    requires var a := PhaseOf(settled, call).result; S.ImpactIn(settled.db, S.ImpactKeyOf(a)) == Some(a)
    ensures
      var sending := RunFrom(agent, settled, between);
      var p, q := PhaseOf(settled, call), PhaseOf(sending, call);
      && (q.Ready? ==>
           PhaseOf(Next(agent, sending, CallStep(call, Continue(true, world))), call)
             == Sent(p.request, p.result, p.cached))
      && StillCurrent(agent, settled, between, p.result)
  {
    ReadyStays(agent, settled, between, call);
    if PhaseOf(RunFrom(agent, settled, between), call).Ready? {
      ReadySends(agent, RunFrom(agent, settled, between), call, world);
    }
    LiveUntilCommit(agent, settled, between, PhaseOf(settled, call).result);
  }

  /**
   What a call sends, some events after its result was settled, is that result. Its row is still
   in the store, and the scan it was computed from still the live one, exactly if no scan committed
   in between; the store then serves for its key whatever was put there last.
   */
  lemma SendsAreCurrent(agent: Agent, events: seq<Event>, call: int, input: Input, between: seq<Event>, world: nat)
    ensures
      var before := RunFrom(agent, INITIAL, events);
      var settled := Next(agent, before, CallStep(call, input));
      var sending := RunFrom(agent, settled, between);
      var p, q := PhaseOf(settled, call), PhaseOf(sending, call);
      !PhaseOf(before, call).Ready? && p.Ready? && q.Ready? ==>
        && PhaseOf(Next(agent, sending, CallStep(call, Continue(true, world))), call)
             == Sent(p.request, p.result, p.cached)
        && StillCurrent(agent, settled, between, p.result)
  {
    var before := RunFrom(agent, INITIAL, events);
    var settled := Next(agent, before, CallStep(call, input));
    RunSafe(agent, INITIAL, events);
    NextSafe(agent, before, CallStep(call, input));
    if !PhaseOf(before, call).Ready? && PhaseOf(settled, call).Ready? {
      ResultsAreCurrent(agent, events, call, input);
      SettledIsSent(agent, settled, call, between, world);
    }
  }

  /** A committed scan is what is read from then on, and leaves no assessment to serve from before it. */
  lemma ScanInvalidates(agent: Agent, events: seq<Event>, scan: ScanResponse, fault: nat, key: S.ImpactKey)
    ensures
      var before := RunFrom(agent, INITIAL, events).db;
      var after := S.Apply(before, S.OpSaveScan(scan, fault));
      after == before || (S.LatestScanIn(after) == Some((before.sequence + 1, scan)) && S.ImpactIn(after, key) == None)
  {
    RunSafe(agent, INITIAL, events);
    var before := RunFrom(agent, INITIAL, events).db;
    var after := S.Apply(before, S.OpSaveScan(scan, fault));
    if after != before {
      S.SupersededIsLatest(before, scan);
      assert S.ScansWithImpact(S.Superseded(before, scan), key) == {};
    }
  }

  /** A scan that commits in between makes the call send what is neither live nor served any more. */
  lemma StaleSend(agent: Agent, events: seq<Event>, call: int, scan: ScanResponse, fault: nat, world: nat)
    ensures
      var settled := RunFrom(agent, INITIAL, events);
      var sent := Next(agent, Next(agent, settled, ScanSaved(scan, fault)), CallStep(call, Continue(true, world)));
      var p := PhaseOf(settled, call);
      p.Ready? && Commits(ScanSaved(scan, fault)) ==>
        && PhaseOf(sent, call) == Sent(p.request, p.result, p.cached)
        && S.LatestScanIn(sent.db) == Some((settled.db.sequence + 1, scan))
        && S.ImpactIn(sent.db, S.ImpactKeyOf(p.result)) == None
  {
    var p := PhaseOf(RunFrom(agent, INITIAL, events), call);
    if p.Ready? {
      ScanInvalidates(agent, events, scan, fault, S.ImpactKeyOf(p.result));
    }
  }

  // ----- A run in which that happens -----

  ghost predicate Reaches(agent: Agent, sys: System) {
    exists events :: RunFrom(agent, INITIAL, events) == sys
  }

  lemma {:induction false} RunThen(agent: Agent, sys: System, events: seq<Event>, e: Event)
    ensures RunFrom(agent, sys, events + [e]) == Next(agent, RunFrom(agent, sys, events), e)
    decreases events
  {
    if events == [] {
      assert [e][1..] == [] && [] + [e] == [e];
    } else {
      assert (events + [e])[0] == events[0] && (events + [e])[1..] == events[1..] + [e];
      RunThen(agent, Next(agent, sys, events[0]), events[1..], e);
    }
  }

  lemma ReachesNext(agent: Agent, sys: System, e: Event)
    requires Reaches(agent, sys)
    ensures Reaches(agent, Next(agent, sys, e))
  {
    var events :| RunFrom(agent, INITIAL, events) == sys;
    RunThen(agent, INITIAL, events, e);
  }

  lemma CallBegins(agent: Agent, sys: System, request: Request)
    requires Reaches(agent, sys) && PhaseOf(sys, 0) == Idle && request.changeSet.Some? && request.streamId != ""
    ensures exists next ::
      && Reaches(agent, next) && next.db == sys.db
      && PhaseOf(next, 0) == Resolved(request, request.streamId, request.changeSet.value)
  {
    var begun := Next(agent, sys, CallStep(0, Open(request, true)));
    ReachesNext(agent, sys, CallStep(0, Open(request, true)));
    ReachesNext(agent, begun, CallStep(0, Resolve(None)));
  }

  /** Reading the scan and finding nothing cached takes two statements. */
  lemma CallMisses(agent: Agent, sys: System, scan: ScanResponse)
    requires Reaches(agent, sys) && PhaseOf(sys, 0).Resolved? && sys.db.impacts == map[]
    requires S.LatestScanIn(sys.db) == Some((sys.db.sequence, scan))
    ensures exists next ::
      && Reaches(agent, next) && next.db == sys.db
      && PhaseOf(next, 0).Missed? && PhaseOf(next, 0).inventory == scan && PhaseOf(next, 0).scanId == sys.db.sequence
  {
    var go := CallStep(0, Continue(true, 0));
    var inventoried := Next(agent, sys, go);
    ReachesNext(agent, sys, go);
    assert S.ImpactIn(sys.db, KeyFor(PhaseOf(inventoried, 0))) == None;
    ReachesNext(agent, inventoried, go);
  }

  /** The agent's answer is stored, and ready to be sent. */
  lemma CallStores(agent: Agent, sys: System, findings: string)
    requires Reaches(agent, sys) && PhaseOf(sys, 0).Missed? && PhaseOf(sys, 0).scanId in sys.db.scans
    requires agent(RequestOf(PhaseOf(sys, 0)), 0) == Some(findings)
    ensures exists next ::
      && Reaches(agent, next) && PhaseOf(next, 0).Ready? && PhaseOf(next, 0).result.findings == findings
  {
    var go := CallStep(0, Continue(true, 0));
    var assessed := Next(agent, sys, go);
    ReachesNext(agent, sys, go);
    ReachesNext(agent, assessed, go);
    assert PhaseOf(Next(agent, assessed, go), 0).Ready?;
  }

  /** A call that opens on a saved scan, and whose agent answers, gets ready to send. */
  lemma CallGetsReady(agent: Agent, request: Request, scan: ScanResponse, findings: string)
    requires request.changeSet.Some? && request.streamId != "" && S.DistinctRefs(scan.resources)
    requires forall req: AssessRequest :: req.inventory == scan ==> agent(req, 0) == Some(findings)
    ensures exists sys ::
      && Reaches(agent, sys) && PhaseOf(sys, 0).Ready? && PhaseOf(sys, 0).result.findings == findings
  {
    var save := ScanSaved(scan, |scan.resources| + 3);
    var saved := Next(agent, INITIAL, save);
    assert RunFrom(agent, INITIAL, []) == INITIAL;
    ReachesNext(agent, INITIAL, save);
    S.SupersededIsLatest(S.EMPTY, scan);
    CallBegins(agent, saved, request);
    var resolved :| Reaches(agent, resolved) && resolved.db == saved.db && PhaseOf(resolved, 0).Resolved?;
    CallMisses(agent, resolved, scan);
    var missed :| Reaches(agent, missed) && missed.db == saved.db && PhaseOf(missed, 0).Missed?
      && PhaseOf(missed, 0).inventory == scan && PhaseOf(missed, 0).scanId == saved.db.sequence;
    CallStores(agent, missed, findings);
  }

  /** The agent that answers differently for the first inventory and for others. */
  function Attentive(first: ScanResponse): Agent {
    (req: AssessRequest, world: nat) => Some(if req.inventory == first then "old" else "new")
  }

  /** The run goes on with another scan, and then the call sends. */
  lemma StaleRun(agent: Agent, events: seq<Event>, second: ScanResponse)
    requires PhaseOf(RunFrom(agent, INITIAL, events), 0).Ready? && second.resources == []
    ensures
      var longer := events + [ScanSaved(second, 3)] + [CallStep(0, Continue(true, 0))];
      var before, sys := RunFrom(agent, INITIAL, events), RunFrom(agent, INITIAL, longer);
      && PhaseOf(sys, 0).Sent? && PhaseOf(sys, 0).result == PhaseOf(before, 0).result
      && S.LatestScanIn(sys.db).Some? && S.LatestScanIn(sys.db).value.1 == second
  {
    StaleSend(agent, events, 0, second, 3, 0);
    RunThen(agent, INITIAL, events, ScanSaved(second, 3));
    RunThen(agent, INITIAL, events + [ScanSaved(second, 3)], CallStep(0, Continue(true, 0)));
  }

  /** Some run ends with a call sending an assessment that was not computed from the live inventory. */
  lemma StaleSendHappens()
    ensures exists agent, events, call ::
      var sys := RunFrom(agent, INITIAL, events);
      && PhaseOf(sys, call).Sent? && S.LatestScanIn(sys.db).Some?
      && !ComputedFrom(agent, PhaseOf(sys, call).result, S.LatestScanIn(sys.db).value.1)
  {
    var first, second := ScanResponse([], [], 0), ScanResponse([], [], 1);
    var agent := Attentive(first);
    var changes := ChangeSet(None, KindApp, "v1", "v2", []);
    CallGetsReady(agent, Request(ResourceRef("d", "", "n"), "app", Some(changes)), first, "old");
    var ready :| Reaches(agent, ready) && PhaseOf(ready, 0).Ready? && PhaseOf(ready, 0).result.findings == "old";
    var events :| RunFrom(agent, INITIAL, events) == ready;
    StaleRun(agent, events, second);
    assert !ComputedFrom(agent, PhaseOf(ready, 0).result, second);
  }

  /** A call whose scan was superseded while the agent worked fails, and leaves no trace. */
  lemma SupersededCallFails(agent: Agent, events: seq<Event>, call: int, served: bool, world: nat)
    ensures
      var sys := RunFrom(agent, INITIAL, events);
      var p := PhaseOf(sys, call);
      p.Assessed? && S.LatestScanIn(sys.db).Some? && S.LatestScanIn(sys.db).value.0 != p.scanId ==>
        Next(agent, sys, CallStep(call, Continue(served, world))) == sys.(calls := sys.calls[call := Failed])
  {
    RunSafe(agent, INITIAL, events);
    S.OneLiveScan(RunFrom(agent, INITIAL, events).db);
  }
}
