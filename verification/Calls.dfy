/**
 What an AssessImpact call comes to: its answer is about its own request, the stored assessment is served
 while there is one, and otherwise the agent's is, however other calls and writes interleave with it.
 */
module Calls {
  import opened Wrappers
  import opened Api
  import opened Impact
  import Ref
  import S = Store
  import Server

  // ----- An answer is about the request -----

  /** The assessment is about the resource, and about the stream and range as far as the request names them. */
  ghost predicate Answers(request: Request, a: ImpactAssessment) {
    && Ref.String(a.target) == Ref.String(request.ref)
    && (request.streamId != "" ==> a.streamId == request.streamId)
    && (request.changeSet.Some? ==>
         a.fromVersion == request.changeSet.value.fromVersion && a.toVersion == request.changeSet.value.toVersion)
  }

  ghost predicate KeepsRequest(request: Request, streamId: string, changes: ChangeSet) {
    && (request.streamId != "" ==> streamId == request.streamId)
    && (request.changeSet.Some? ==> changes == request.changeSet.value)
  }

  ghost predicate About(p: Phase) {
    match p
    case Opened(request, streamId) => request.streamId != "" ==> streamId == request.streamId
    case Resolved(request, streamId, changes) => KeepsRequest(request, streamId, changes)
    case Inventoried(request, streamId, changes, _, _) => KeepsRequest(request, streamId, changes)
    case Missed(request, streamId, changes, _, _) => KeepsRequest(request, streamId, changes)
    case Assessed(request, streamId, changes, _, _, a) =>
      KeepsRequest(request, streamId, changes) && S.ImpactKeyOf(a) == KeyFor(p)
    case Ready(request, result, _) => Answers(request, result)
    case Sent(request, result, _) => Answers(request, result)
    case _ => true
  }

  lemma AdvanceAbout(agent: Agent, db: S.Db, p: Phase, input: Input)
    requires S.Consistent(db) && About(p)
    ensures About(Advance(agent, db, p, input).1)
  {
    if p.Inventoried? { S.ImpactIsLive(db, KeyFor(p)); }
  }

  lemma AdvanceAboutNext(agent: Agent, sys: System, e: Event, call: int)
    requires Safe(agent, sys) && About(PhaseOf(sys, call))
    ensures About(PhaseOf(Next(agent, sys, e), call))
  {
    if e.CallStep? && e.call == call { AdvanceAbout(agent, sys.db, PhaseOf(sys, call), e.input); }
  }

  lemma {:induction false} StaysAbout(agent: Agent, sys: System, events: seq<Event>, call: int)
    requires Safe(agent, sys) && About(PhaseOf(sys, call))
    ensures About(PhaseOf(RunFrom(agent, sys, events), call))
    decreases events
  {
    if events != [] {
      AdvanceAboutNext(agent, sys, events[0], call);
      NextSafe(agent, sys, events[0]);
      StaysAbout(agent, Next(agent, sys, events[0]), events[1..], call);
    }
  }

  /** Whatever a call sends in any run is about the resource, stream and range it was asked for. */
  lemma AnswersRequest(agent: Agent, events: seq<Event>, call: int)
    ensures var p := PhaseOf(RunFrom(agent, INITIAL, events), call);
      p.Ready? || p.Sent? ==> Answers(p.request, p.result)
  {
    StaysAbout(agent, INITIAL, events, call);
  }

  // ----- A call on its own -----

  /** The database and the phase after a call's steps when nothing else happens. */
  ghost function Alone(agent: Agent, db: S.Db, p: Phase, inputs: seq<Input>): (S.Db, Phase)
    decreases inputs
  {
    if inputs == [] then (db, p)
    else var next := Advance(agent, db, p, inputs[0]); Alone(agent, next.0, next.1, inputs[1..])
  }

  /** On its way it looks up no other key. */
  ghost predicate LooksUp(agent: Agent, db: S.Db, p: Phase, inputs: seq<Input>, key: S.ImpactKey)
    decreases inputs
  {
    && (p.Inventoried? ==> KeyFor(p) == key)
    && (inputs != [] ==>
         var next := Advance(agent, db, p, inputs[0]); LooksUp(agent, next.0, next.1, inputs[1..], key))
  }

  /** The inputs of a call's own steps. */
  ghost function InputsOf(events: seq<Event>, call: int): seq<Input> {
    if events == [] then []
    else (if events[0].CallStep? && events[0].call == call then [events[0].input] else [])
         + InputsOf(events[1..], call)
  }

  /** No scan commits, and no other call stores under the key. */
  ghost predicate Undisturbed(agent: Agent, sys: System, events: seq<Event>, call: int, key: S.ImpactKey)
    decreases events
  {
    events != [] ==>
      var e := events[0];
      && !Commits(e) && ((e.CallStep? && e.call == call) || PutBy(sys, e, key) == None)
      && Undisturbed(agent, Next(agent, sys, e), events[1..], call, key)
  }

  /** The databases agree on what such a call reads. */
  ghost predicate SameView(a: S.Db, b: S.Db, key: S.ImpactKey) {
    && S.Consistent(a) && S.Consistent(b) && a.sequence == b.sequence && a.scans == b.scans
    && S.ImpactIn(a, key) == S.ImpactIn(b, key)
  }

  lemma RowDecides(db: S.Db, key: S.ImpactKey)
    requires S.Consistent(db)
    ensures S.ImpactIn(db, key) ==
      if (db.sequence, key) in db.impacts then Some(db.impacts[(db.sequence, key)]) else None
  {
    S.ImpactIsLive(db, key);
  }

  lemma AdvanceConsistent(agent: Agent, db: S.Db, p: Phase, input: Input)
    requires S.Consistent(db)
    ensures S.Consistent(Advance(agent, db, p, input).0)
  {
    AdvanceWrites(agent, db, p, input);
    if p.Assessed? { S.ApplyConsistent(db, S.OpPutImpact(p.scanId, p.assessment)); }
  }

  lemma RowAfterPut(db: S.Db, scanId: int, a: ImpactAssessment, key: S.ImpactKey)
    requires S.Consistent(db)
    ensures var after := S.Apply(db, S.OpPutImpact(scanId, a));
      && S.Consistent(after) && after.sequence == db.sequence && after.scans == db.scans
      && S.ImpactIn(after, key) ==
         if scanId in db.scans && S.ImpactKeyOf(a) == key then Some(a) else S.ImpactIn(db, key)
  {
    var after := S.Apply(db, S.OpPutImpact(scanId, a));
    S.ApplyConsistent(db, S.OpPutImpact(scanId, a));
    RowDecides(db, key);
    RowDecides(after, key);
  }

  /** A call that sees the same does the same. */
  lemma AdvanceView(agent: Agent, a: S.Db, b: S.Db, p: Phase, input: Input, key: S.ImpactKey)
    requires SameView(a, b, key) && (p.Inventoried? ==> KeyFor(p) == key)
    ensures Advance(agent, a, p, input).1 == Advance(agent, b, p, input).1
    ensures SameView(Advance(agent, a, p, input).0, Advance(agent, b, p, input).0, key)
  {
    if p.Assessed? && input.Continue? && input.served && p.scanId in a.scans {
      RowAfterPut(a, p.scanId, p.assessment, key);
      RowAfterPut(b, p.scanId, p.assessment, key);
      var put := S.OpPutImpact(p.scanId, p.assessment);
      assert Advance(agent, a, p, input).0 == S.Apply(a, put) && Advance(agent, b, p, input).0 == S.Apply(b, put);
    } else {
      AdvanceReads(agent, a, p, input);
      AdvanceReads(agent, b, p, input);
    }
  }

  /** What others do meanwhile does not change what it sees. */
  lemma OthersKeepView(agent: Agent, sys: System, e: Event, call: int, db: S.Db, key: S.ImpactKey)
    requires SameView(sys.db, db, key)
    requires !Commits(e) && !(e.CallStep? && e.call == call) && PutBy(sys, e, key) == None
    ensures PhaseOf(Next(agent, sys, e), call) == PhaseOf(sys, call)
    ensures SameView(Next(agent, sys, e).db, db, key)
  {
    var next := Next(agent, sys, e);
    match e
    case CallStep(other, input) =>
      AdvanceConsistent(agent, sys.db, PhaseOf(sys, other), input);
      RowDecides(sys.db, key);
      RowDecides(next.db, key);
    case ScanSaved(_, _) =>
    case OtherWrites(versionLists, changeSets, resolutions) =>
      S.ApplyConsistent(sys.db, S.OpOther(versionLists, changeSets, resolutions));
      RowDecides(sys.db, key);
      RowDecides(next.db, key);
  }

  /** However it interleaves with others, an undisturbed call comes to what it comes to alone. */
  lemma {:induction false} RunsAsAlone(agent: Agent, sys: System, events: seq<Event>, call: int, db: S.Db,
                                       key: S.ImpactKey)
    requires SameView(sys.db, db, key) && Undisturbed(agent, sys, events, call, key)
    requires LooksUp(agent, db, PhaseOf(sys, call), InputsOf(events, call), key)
    ensures var alone := Alone(agent, db, PhaseOf(sys, call), InputsOf(events, call));
      var after := RunFrom(agent, sys, events);
      PhaseOf(after, call) == alone.1 && SameView(after.db, alone.0, key)
    decreases events
  {
    if events != [] {
      var e, p, next := events[0], PhaseOf(sys, call), Next(agent, sys, events[0]);
      var rest := InputsOf(events[1..], call);
      if e.CallStep? && e.call == call {
        assert InputsOf(events, call) == [e.input] + rest && ([e.input] + rest)[1..] == rest;
        AdvanceView(agent, sys.db, db, p, e.input, key);
        RunsAsAlone(agent, next, events[1..], call, Advance(agent, db, p, e.input).0, key);
      } else {
        assert InputsOf(events, call) == rest;
        OthersKeepView(agent, sys, e, call, db, key);
        RunsAsAlone(agent, next, events[1..], call, db, key);
      }
    }
  }

  // ----- What a request comes to -----

  /** The stream a request is about: the one it names, else the primary one, if it could be looked up. */
  ghost predicate StreamAsked(db: S.Db, request: Request, lookedUp: bool, streamId: string) {
    if request.streamId != "" then streamId == request.streamId
    else
      var primary := Server.StreamIn(Server.CachedScanIn(db), request.ref, "");
      streamId == if lookedUp && primary.Ok? then primary.value.1.id else ""
  }

  /** The change set a request is about: the one it brings, else the resolved one. */
  ghost predicate ChangesAsked(request: Request, resolved: Option<ChangeSet>, changes: ChangeSet) {
    Some(changes) == if request.changeSet.Some? then request.changeSet else resolved
  }

  ghost predicate Asked(db: S.Db, request: Request, lookedUp: bool, resolved: Option<ChangeSet>, streamId: string,
                        changes: ChangeSet)
  {
    StreamAsked(db, request, lookedUp, streamId) && ChangesAsked(request, resolved, changes)
  }

  function KeyAsked(request: Request, streamId: string, changes: ChangeSet): S.ImpactKey {
    S.ImpactKey(Ref.String(request.ref), streamId, changes.fromVersion, changes.toVersion)
  }

  lemma AloneStep(agent: Agent, db: S.Db, p: Phase, input: Input, rest: seq<Input>, key: S.ImpactKey)
    requires p.Inventoried? ==> KeyFor(p) == key
    ensures var next := Advance(agent, db, p, input);
      && Alone(agent, db, p, [input] + rest) == Alone(agent, next.0, next.1, rest)
      && (LooksUp(agent, db, p, [input] + rest, key) <==> LooksUp(agent, next.0, next.1, rest, key))
  {
    assert ([input] + rest)[1..] == rest;
  }

  lemma AloneEnds(agent: Agent, db: S.Db, p: Phase, key: S.ImpactKey)
    requires p.Inventoried? ==> KeyFor(p) == key
    ensures Alone(agent, db, p, []) == (db, p) && LooksUp(agent, db, p, [], key)
  {
  }

  /** What a call is asked, and the first statement it makes about it. */
  function Beginning(request: Request, lookedUp: bool, resolved: Option<ChangeSet>, w: nat): seq<Input> {
    [Open(request, lookedUp)] + ([Resolve(resolved)] + [Continue(true, w)])
  }

  lemma AloneBegins(agent: Agent, db: S.Db, request: Request, lookedUp: bool, resolved: Option<ChangeSet>,
                    streamId: string, changes: ChangeSet, w: nat, rest: seq<Input>, key: S.ImpactKey)
    requires Asked(db, request, lookedUp, resolved, streamId, changes) && key == KeyAsked(request, streamId, changes)
    ensures var live := S.LatestScanIn(db);
      var p := if live.None? then Failed else Inventoried(request, streamId, changes, live.value.0, live.value.1);
      var inputs := Beginning(request, lookedUp, resolved, w) + rest;
      && Alone(agent, db, Idle, inputs) == Alone(agent, db, p, rest)
      && (LooksUp(agent, db, Idle, inputs, key) <==> LooksUp(agent, db, p, rest, key))
  {
    var first, second, third := Open(request, lookedUp), Resolve(resolved), Continue(true, w);
    assert Beginning(request, lookedUp, resolved, w) + rest == [first] + ([second] + ([third] + rest));
    AloneStep(agent, db, Idle, first, [second] + ([third] + rest), key);
    AloneStep(agent, db, Opened(request, streamId), second, [third] + rest, key);
    AloneStep(agent, db, Resolved(request, streamId, changes), third, rest, key);
  }

  /** Reads the cached row, and sends it. */
  lemma AloneServes(agent: Agent, db: S.Db, p: Phase, a: ImpactAssessment, v: nat, w: nat)
    requires p.Inventoried? && S.ImpactIn(db, KeyFor(p)) == Some(a)
    ensures var inputs := [Continue(true, v)] + ([Continue(true, w)] + []);
      Alone(agent, db, p, inputs) == (db, Sent(p.request, a, true)) && LooksUp(agent, db, p, inputs, KeyFor(p))
  {
    var read, send, key := Continue(true, v), Continue(true, w), KeyFor(p);
    AloneStep(agent, db, p, read, [send] + [], key);
    AloneStep(agent, db, Ready(p.request, a, true), send, [], key);
    AloneEnds(agent, db, Sent(p.request, a, true), key);
  }

  lemma AloneSends(agent: Agent, db: S.Db, request: Request, lookedUp: bool, resolved: Option<ChangeSet>,
                   streamId: string, changes: ChangeSet, a: ImpactAssessment, u: nat, v: nat, w: nat)
    requires S.Consistent(db) && Asked(db, request, lookedUp, resolved, streamId, changes)
    requires S.ImpactIn(db, KeyAsked(request, streamId, changes)) == Some(a)
    ensures var inputs :=
        [Open(request, lookedUp), Resolve(resolved), Continue(true, u), Continue(true, v), Continue(true, w)];
      && Alone(agent, db, Idle, inputs) == (db, Sent(request, a, true))
      && LooksUp(agent, db, Idle, inputs, KeyAsked(request, streamId, changes))
  {
    var key, live := KeyAsked(request, streamId, changes), S.LatestScanIn(db);
    S.OneLiveScan(db);
    S.ImpactIsLive(db, key);
    var last := [Continue(true, v)] + ([Continue(true, w)] + []);
    AloneBegins(agent, db, request, lookedUp, resolved, streamId, changes, u, last, key);
    AloneServes(agent, db, Inventoried(request, streamId, changes, live.value.0, live.value.1), a, v, w);
    assert Beginning(request, lookedUp, resolved, u) + last ==
      [Open(request, lookedUp), Resolve(resolved), Continue(true, u), Continue(true, v), Continue(true, w)];
  }

  /**
   While an assessment is stored under what a request asks for, a call with the request, none of whose
   statements fails, sends that one, whatever the agent would say now.
   */
  lemma StoredIsSent(agent: Agent, sys: System, events: seq<Event>, call: int, request: Request, lookedUp: bool,
                     resolved: Option<ChangeSet>, streamId: string, changes: ChangeSet, a: ImpactAssessment,
                     u: nat, v: nat, w: nat)
    requires S.Consistent(sys.db) && PhaseOf(sys, call) == Idle
    requires Asked(sys.db, request, lookedUp, resolved, streamId, changes)
    requires S.ImpactIn(sys.db, KeyAsked(request, streamId, changes)) == Some(a)
    requires Undisturbed(agent, sys, events, call, KeyAsked(request, streamId, changes))
    requires InputsOf(events, call) ==
      [Open(request, lookedUp), Resolve(resolved), Continue(true, u), Continue(true, v), Continue(true, w)]
    ensures PhaseOf(RunFrom(agent, sys, events), call) == Sent(request, a, true)
    ensures S.ImpactIn(RunFrom(agent, sys, events).db, KeyAsked(request, streamId, changes)) == Some(a)
  {
    AloneSends(agent, sys.db, request, lookedUp, resolved, streamId, changes, a, u, v, w);
    RunsAsAlone(agent, sys, events, call, sys.db, KeyAsked(request, streamId, changes));
  }

  /** An answer is stored, and then sent. */
  lemma AloneStores(agent: Agent, db: S.Db, p: Phase, v: nat, w: nat, key: S.ImpactKey)
    requires S.Consistent(db) && p.Assessed? && p.scanId in db.scans && S.ImpactKeyOf(p.assessment) == key
    ensures var inputs := [Continue(true, v)] + ([Continue(true, w)] + []);
      var alone := Alone(agent, db, p, inputs);
      && LooksUp(agent, db, p, inputs, key)
      && alone.1 == Sent(p.request, p.assessment, false) && S.ImpactIn(alone.0, key) == Some(p.assessment)
  {
    var put, send := Continue(true, v), Continue(true, w);
    var stored := Advance(agent, db, p, put).0;
    AloneStep(agent, db, p, put, [send] + [], key);
    AloneStep(agent, stored, Ready(p.request, p.assessment, false), send, [], key);
    AloneEnds(agent, stored, Sent(p.request, p.assessment, false), key);
    RowAfterPut(db, p.scanId, p.assessment, key);
    assert stored == S.Apply(db, S.OpPutImpact(p.scanId, p.assessment));
  }

  lemma AloneFailed(agent: Agent, db: S.Db, u: nat, v: nat, key: S.ImpactKey)
    ensures var inputs := [Continue(true, u)] + ([Continue(true, v)] + []);
      Alone(agent, db, Failed, inputs) == (db, Failed) && LooksUp(agent, db, Failed, inputs, key)
  {
    AloneStep(agent, db, Failed, Continue(true, u), [Continue(true, v)] + [], key);
    AloneStep(agent, db, Failed, Continue(true, v), [], key);
    AloneEnds(agent, db, Failed, key);
  }

  /** The assessment of a request that the agent answers. */
  function AssessmentOf(request: Request, streamId: string, changes: ChangeSet, findings: string): ImpactAssessment {
    ImpactAssessment(request.ref, streamId, changes.fromVersion, changes.toVersion, findings)
  }

  /** How a call that had to ask the agent ends. */
  ghost predicate EndsWith(db: S.Db, p: Phase, request: Request, streamId: string, changes: ChangeSet,
                           findings: Option<string>)
  {
    var key := KeyAsked(request, streamId, changes);
    match findings
    case None => p == Failed && S.ImpactIn(db, key) == None
    case Some(text) =>
      var a := AssessmentOf(request, streamId, changes, text);
      p == Sent(request, a, false) && S.ImpactIn(db, key) == Some(a)
  }

  lemma AloneAsks(agent: Agent, db: S.Db, p: Phase, u: nat, v: nat, w: nat, x: nat)
    requires p.Inventoried? && S.Consistent(db) && p.scanId in db.scans && S.ImpactIn(db, KeyFor(p)) == None
    ensures
      var inputs := [Continue(true, u)] + ([Continue(true, v)] + ([Continue(true, w)] + ([Continue(true, x)] + [])));
      var alone := Alone(agent, db, p, inputs);
      var findings := agent(AssessRequest(p.request.ref, p.streamId, p.changes.fromVersion, p.changes.toVersion,
                                          p.changes, p.inventory), v);
      && LooksUp(agent, db, p, inputs, KeyFor(p))
      && EndsWith(alone.0, alone.1, p.request, p.streamId, p.changes, findings)
  {
    var q, key := Missed(p.request, p.streamId, p.changes, p.scanId, p.inventory), KeyFor(p);
    var last := [Continue(true, w)] + ([Continue(true, x)] + []);
    AloneStep(agent, db, p, Continue(true, u), [Continue(true, v)] + last, key);
    AloneStep(agent, db, q, Continue(true, v), last, key);
    var findings := agent(RequestOf(q), v);
    if findings.None? {
      AloneFailed(agent, db, w, x, key);
    } else {
      var a := AssessmentOf(p.request, p.streamId, p.changes, findings.value);
      AloneStores(agent, db, Assessed(p.request, p.streamId, p.changes, p.scanId, p.inventory, a), w, x, key);
    }
  }

  /**
   With nothing stored, and a scan to work from, the agent is asked about exactly the resource, stream, range,
   change set and inventory in question. If it answers, the call sends that, and it is what is stored from then
   on; if not, the call fails and nothing is stored.
   */
  lemma AgentIsAsked(agent: Agent, sys: System, events: seq<Event>, call: int, request: Request, lookedUp: bool,
                     resolved: Option<ChangeSet>, streamId: string, changes: ChangeSet,
                     t: nat, u: nat, v: nat, w: nat, x: nat)
    requires S.Consistent(sys.db) && PhaseOf(sys, call) == Idle && S.LatestScanIn(sys.db).Some?
    requires Asked(sys.db, request, lookedUp, resolved, streamId, changes)
    requires S.ImpactIn(sys.db, KeyAsked(request, streamId, changes)) == None
    requires Undisturbed(agent, sys, events, call, KeyAsked(request, streamId, changes))
    requires InputsOf(events, call) == [Open(request, lookedUp), Resolve(resolved), Continue(true, t),
      Continue(true, u), Continue(true, v), Continue(true, w), Continue(true, x)]
    ensures
      var after := RunFrom(agent, sys, events);
      var findings := agent(AssessRequest(request.ref, streamId, changes.fromVersion, changes.toVersion, changes,
                                          S.LatestScanIn(sys.db).value.1), v);
      EndsWith(after.db, PhaseOf(after, call), request, streamId, changes, findings)
  {
    var db, key, live := sys.db, KeyAsked(request, streamId, changes), S.LatestScanIn(sys.db);
    var last := [Continue(true, u)] + ([Continue(true, v)] + ([Continue(true, w)] + ([Continue(true, x)] + [])));
    assert InputsOf(events, call) == Beginning(request, lookedUp, resolved, t) + last;
    AloneBegins(agent, db, request, lookedUp, resolved, streamId, changes, t, last, key);
    AloneAsks(agent, db, Inventoried(request, streamId, changes, live.value.0, live.value.1), u, v, w, x);
    RunsAsAlone(agent, sys, events, call, db, key);
  }

  lemma AloneFails(agent: Agent, db: S.Db, request: Request, lookedUp: bool, resolved: Option<ChangeSet>,
                   key: S.ImpactKey, u: nat)
    requires S.LatestScanIn(db).None? || (request.changeSet.None? && resolved.None?)
    ensures var inputs := [Open(request, lookedUp), Resolve(resolved), Continue(true, u)];
      Alone(agent, db, Idle, inputs) == (db, Failed) && LooksUp(agent, db, Idle, inputs, key)
  {
    var streamId := DefaultStream(db, request, lookedUp);
    var given := if request.changeSet.Some? then request.changeSet else resolved;
    var q := if given.Some? then Resolved(request, streamId, given.value) else Failed;
    var first, second, third := Open(request, lookedUp), Resolve(resolved), Continue(true, u);
    AloneStep(agent, db, Idle, first, [second] + ([third] + []), key);
    AloneStep(agent, db, Opened(request, streamId), second, [third] + [], key);
    AloneStep(agent, db, q, third, [], key);
    AloneEnds(agent, db, Failed, key);
    assert [first, second, third] == [first] + ([second] + ([third] + []));
  }

  /** Without a scan, or without a change set to assess, the call fails. */
  lemma NothingToAssess(agent: Agent, sys: System, events: seq<Event>, call: int, request: Request, lookedUp: bool,
                        resolved: Option<ChangeSet>, key: S.ImpactKey, u: nat)
    requires S.Consistent(sys.db) && PhaseOf(sys, call) == Idle
    requires S.LatestScanIn(sys.db).None? || (request.changeSet.None? && resolved.None?)
    requires Undisturbed(agent, sys, events, call, key)
    requires InputsOf(events, call) == [Open(request, lookedUp), Resolve(resolved), Continue(true, u)]
    ensures PhaseOf(RunFrom(agent, sys, events), call) == Failed
  {
    AloneFails(agent, sys.db, request, lookedUp, resolved, key, u);
    RunsAsAlone(agent, sys, events, call, sys.db, key);
  }

  /** A statement that is not served ends the call without a write: neither is the agent asked, nor anything sent. */
  lemma UnservedEnds(agent: Agent, sys: System, call: int, world: nat)
    ensures var p, next := PhaseOf(sys, call), Next(agent, sys, CallStep(call, Continue(false, world)));
      next.db == sys.db && (p.Missed? || PhaseOf(next, call) == Failed || PhaseOf(next, call) == p)
    ensures var p := PhaseOf(sys, call);
      p.Resolved? || p.Inventoried? || p.Assessed? || p.Ready? ==>
        PhaseOf(Next(agent, sys, CallStep(call, Continue(false, world))), call) == Failed
  {
  }

  /** The second request is for the key of the first one's answer, as far as its text leaves that open. */
  ghost predicate AsksAgain(db: S.Db, request: Request, lookedUp: bool, resolved: Option<ChangeSet>,
                            a: ImpactAssessment)
  {
    && (request.streamId == "" ==> StreamAsked(db, request, lookedUp, a.streamId))
    && (request.changeSet.None? ==>
         resolved.Some? && resolved.value.fromVersion == a.fromVersion && resolved.value.toVersion == a.toVersion)
  }

  /**
   When a call settled on an answer, and since then no scan committed and nothing newer was put under its key, a
   second call with the same request sends the same answer from the store, whoever the agent is by then.
   */
  lemma RepeatIsServed(agent: Agent, events: seq<Event>, first: int, input: Input, between: seq<Event>, later: Agent,
                       more: seq<Event>, second: int, lookedUp: bool, resolved: Option<ChangeSet>,
                       u: nat, v: nat, w: nat)
    requires
      var before := RunFrom(agent, INITIAL, events);
      var settled := Next(agent, before, CallStep(first, input));
      var p, now := PhaseOf(settled, first), RunFrom(agent, settled, between);
      && !PhaseOf(before, first).Ready? && p.Ready?
      && (forall e :: e in between ==> !Commits(e))
      && LastPut(agent, settled, between, S.ImpactKeyOf(p.result), p.result) == p.result
      && PhaseOf(now, second) == Idle && AsksAgain(now.db, p.request, lookedUp, resolved, p.result)
      && Undisturbed(later, now, more, second, S.ImpactKeyOf(p.result))
      && InputsOf(more, second) ==
         [Open(p.request, lookedUp), Resolve(resolved), Continue(true, u), Continue(true, v), Continue(true, w)]
    ensures
      var settled := Next(agent, RunFrom(agent, INITIAL, events), CallStep(first, input));
      var p, now := PhaseOf(settled, first), RunFrom(agent, settled, between);
      PhaseOf(RunFrom(later, now, more), second) == Sent(p.request, p.result, true)
  {
    var before := RunFrom(agent, INITIAL, events);
    var settled := Next(agent, before, CallStep(first, input));
    var p, now := PhaseOf(settled, first), RunFrom(agent, settled, between);
    RunSafe(agent, INITIAL, events);
    NextSafe(agent, before, CallStep(first, input));
    RunSafe(agent, settled, between);
    StaysAbout(agent, INITIAL, events, first);
    AdvanceAboutNext(agent, before, CallStep(first, input), first);
    ResultsAreCurrent(agent, events, first, input);
    LiveUntilCommit(agent, settled, between, p.result);
    var changes := if p.request.changeSet.Some? then p.request.changeSet.value else resolved.value;
    StoredIsSent(later, now, more, second, p.request, lookedUp, resolved, p.result.streamId, changes, p.result,
                 u, v, w);
  }
}
