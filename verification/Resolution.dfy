/**
 The resolution loop of internal/resolve/resolve.go over the cache of
 internal/server/resolve.go, as a function of what the clock, the store and the network do;
 budget, spacing and coverage over successive scans.
 */
module Resolution {
  import opened Wrappers
  import S = Store

  const MAX_PACKAGES_PER_SCAN := 20
  const RESOLUTION_TTL := 7 * 24 * 3600 * S.SECOND
  const RESOLUTION_FAILURE_TTL := 24 * 3600 * S.SECOND

  type Table = map<S.Package, S.ResolutionRow>

  /** What surrounds the handling of one package: clock readings, and what fails. */
  datatype Tick = Tick(readAt: int, attemptAt: int, putAt: int, appliedAt: int, readServed: bool, cancelled: bool,
                       putServed: bool)

  /** One run of Upstreams: the packages in order, and for each position its tick and the answer ("" for none). */
  datatype Round = Round(order: seq<S.Package>, cached: bool, ticks: nat -> Tick, answers: (nat, S.Package) -> string)

  datatype Event =
    | Attempted(package: S.Package, at: int)
    | Recorded(package: S.Package, at: int, url: string)

  datatype Stamp = Stamp(url: string, at: int)

  /** The resolutions table, the network attempts so far, what happened, and which packages get which URL. */
  datatype Progress = Progress(table: Table, fetched: nat, trace: seq<Event>, applied: map<S.Package, Stamp>)

  function CacheHit(table: Table, p: S.Package, t: Tick, cached: bool): Option<string> {
    if cached && t.readServed then S.ResolutionIn(table, p, t.readAt, RESOLUTION_TTL, RESOLUTION_FAILURE_TTL) else None
  }

  function Applied(applied: map<S.Package, Stamp>, p: S.Package, url: string, at: int): map<S.Package, Stamp> {
    if url == "" then applied else applied[p := Stamp(url, at)]
  }

  function Handle(round: Round, i: nat, pr: Progress): Progress
    requires i < |round.order|
  {
    var p, t := round.order[i], round.ticks(i);
    var hit := CacheHit(pr.table, p, t, round.cached);
    if hit.Some? then pr.(applied := Applied(pr.applied, p, hit.value, t.appliedAt))
    else if pr.fetched >= MAX_PACKAGES_PER_SCAN || t.cancelled then pr
    else
      var url := round.answers(i, p);
      var put := round.cached && t.putServed;
      Progress(
        if put then pr.table[p := S.ResolutionRow(url, S.Unix(t.putAt))] else pr.table,
        pr.fetched + 1,
        pr.trace + [Attempted(p, t.attemptAt)] + (if put then [Recorded(p, t.putAt, url)] else []),
        Applied(pr.applied, p, url, t.appliedAt))
  }

  function RunTo(round: Round, n: nat, table: Table): Progress
    requires n <= |round.order|
  {
    if n == 0 then Progress(table, 0, [], map[]) else Handle(round, n - 1, RunTo(round, n - 1, table))
  }

  function Run(round: Round, table: Table): Progress {
    RunTo(round, |round.order|, table)
  }

  ghost predicate Distinct<T>(s: seq<T>) {
    forall i, j :: 0 <= i < j < |s| ==> s[i] != s[j]
  }

  // ----- One run -----

  ghost function Attempts(trace: seq<Event>): nat {
    if trace == [] then 0
    else Attempts(trace[..|trace| - 1]) + (if trace[|trace| - 1].Attempted? then 1 else 0)
  }

  lemma AttemptsOfPair(trace: seq<Event>, a: Event, b: Event)
    ensures Attempts(trace + [a]) == Attempts(trace) + (if a.Attempted? then 1 else 0)
    ensures Attempts(trace + [a] + [b]) == Attempts(trace + [a]) + (if b.Attempted? then 1 else 0)
  {
    assert (trace + [a])[..|trace|] == trace;
    assert (trace + [a] + [b])[..|trace| + 1] == trace + [a];
  }

  lemma HandleCountsAttempts(round: Round, i: nat, pr: Progress)
    requires i < |round.order| && pr.fetched == Attempts(pr.trace)
    ensures Handle(round, i, pr).fetched == Attempts(Handle(round, i, pr).trace)
  {
    var p, t := round.order[i], round.ticks(i);
    var a, b := Attempted(p, t.attemptAt), Recorded(p, t.putAt, round.answers(i, p));
    AttemptsOfPair(pr.trace, a, b);
    assert pr.trace + [a] + [] == pr.trace + [a];
  }

  lemma {:induction false} FetchedCountsAttempts(round: Round, n: nat, table: Table)
    requires n <= |round.order|
    ensures RunTo(round, n, table).fetched == Attempts(RunTo(round, n, table).trace)
  {
    if n > 0 {
      FetchedCountsAttempts(round, n - 1, table);
      HandleCountsAttempts(round, n - 1, RunTo(round, n - 1, table));
    }
  }

  /** No package is attempted twice, and everything that happened concerns the first n packages. */
  ghost predicate AttemptedOnce(order: seq<S.Package>, n: nat, trace: seq<Event>, applied: map<S.Package, Stamp>)
    requires n <= |order|
  {
    && (forall i :: 0 <= i < |trace| ==> trace[i].package in order[..n])
    && (forall i, j :: 0 <= i < j < |trace| && trace[i].Attempted? && trace[j].Attempted? ==>
         trace[i].package != trace[j].package)
    && (forall p :: p in applied ==> p in order[..n] && applied[p].url != "")
  }

  lemma AttemptedOnceStep(order: seq<S.Package>, n: nat, trace: seq<Event>, applied: map<S.Package, Stamp>, e: Event,
                          s: Stamp)
    requires n < |order| && Distinct(order) && AttemptedOnce(order, n, trace, applied)
    requires e.package == order[n] && s.url != ""
    ensures AttemptedOnce(order, n + 1, trace, applied)
    ensures AttemptedOnce(order, n + 1, trace, applied[order[n] := s])
    ensures AttemptedOnce(order, n + 1, trace + [e], applied)
    ensures AttemptedOnce(order, n + 1, trace + [e], applied[order[n] := s])
  {
    assert order[..n + 1] == order[..n] + [order[n]];
    assert order[n] !in order[..n];
  }

  lemma RecordKeepsAttemptedOnce(order: seq<S.Package>, n: nat, trace: seq<Event>, applied: map<S.Package, Stamp>,
                                 e: Event)
    requires n <= |order| && AttemptedOnce(order, n, trace, applied) && e.Recorded? && e.package in order[..n]
    ensures AttemptedOnce(order, n, trace + [e], applied)
  {
  }

  lemma HandleAttemptedOnce(round: Round, n: nat, pr: Progress, next: Progress)
    requires n < |round.order| && Distinct(round.order) && AttemptedOnce(round.order, n, pr.trace, pr.applied)
    requires next == Handle(round, n, pr)
    ensures AttemptedOnce(round.order, n + 1, next.trace, next.applied)
  {
    var p, t := round.order[n], round.ticks(n);
    var hit := CacheHit(pr.table, p, t, round.cached);
    var url := if hit.Some? then hit.value else round.answers(n, p);
    var attempt, record := Attempted(p, t.attemptAt), Recorded(p, t.putAt, url);
    var applied := Applied(pr.applied, p, url, t.appliedAt);
    AttemptedOnceStep(round.order, n, pr.trace, pr.applied, attempt,
      Stamp(if url == "" then "-" else url, t.appliedAt));
    if next.trace != pr.trace {
      assert round.order[..n + 1] == round.order[..n] + [p];
      RecordKeepsAttemptedOnce(round.order, n + 1, pr.trace + [attempt], applied, record);
      assert pr.trace + [attempt] + [] == pr.trace + [attempt];
    }
  }

  lemma {:induction false} RunAttemptedOnce(round: Round, n: nat, table: Table)
    requires n <= |round.order| && Distinct(round.order)
    ensures var pr := RunTo(round, n, table); AttemptedOnce(round.order, n, pr.trace, pr.applied)
  {
    if n > 0 {
      RunAttemptedOnce(round, n - 1, table);
      HandleAttemptedOnce(round, n - 1, RunTo(round, n - 1, table), RunTo(round, n, table));
    }
  }

  lemma {:induction false} RunWithinBudget(round: Round, n: nat, table: Table)
    requires n <= |round.order|
    ensures RunTo(round, n, table).fetched <= MAX_PACKAGES_PER_SCAN
  {
    if n > 0 { RunWithinBudget(round, n - 1, table); }
  }

  /** One run makes at most 20 attempts, at most one for any package, and only for packages it was given. */
  lemma RunBudget(round: Round, table: Table)
    requires Distinct(round.order)
    ensures Attempts(Run(round, table).trace) <= 20
    ensures AttemptedOnce(round.order, |round.order|, Run(round, table).trace, Run(round, table).applied)
  {
    FetchedCountsAttempts(round, |round.order|, table);
    RunWithinBudget(round, |round.order|, table);
    RunAttemptedOnce(round, |round.order|, table);
  }

  // ----- Spacing over successive runs -----

  ghost function RunAll(rounds: seq<Round>, table: Table): (Table, seq<Event>) {
    if rounds == [] then (table, [])
    else
      var (earlier, trace) := RunAll(rounds[..|rounds| - 1], table);
      var pr := Run(rounds[|rounds| - 1], earlier);
      (pr.table, trace + pr.trace)
  }

  /** The event at i is the last recording of its package. */
  ghost predicate LastRecording(trace: seq<Event>, i: int, p: S.Package) {
    && 0 <= i < |trace| && trace[i].Recorded? && trace[i].package == p
    && forall k :: i < k < |trace| ==> !(trace[k].Recorded? && trace[k].package == p)
  }

  /** The table a trace leaves of one: every recording replaces the row of its package, in whole seconds. */
  ghost function Replay(start: Table, trace: seq<Event>): Table {
    if trace == [] then start
    else
      var earlier := Replay(start, trace[..|trace| - 1]);
      match trace[|trace| - 1]
      case Recorded(p, at, url) => earlier[p := S.ResolutionRow(url, S.Unix(at))]
      case Attempted(_, _) => earlier
  }

  lemma ReplayStep(start: Table, trace: seq<Event>, e: Event)
    ensures e.Attempted? ==> Replay(start, trace + [e]) == Replay(start, trace)
    ensures e.Recorded? ==>
      Replay(start, trace + [e]) == Replay(start, trace)[e.package := S.ResolutionRow(e.url, S.Unix(e.at))]
  {
    assert (trace + [e])[..|trace|] == trace;
  }

  /** The row a package has after a trace is that of its last recording. */
  lemma {:induction false} LastRecordingReplayed(start: Table, trace: seq<Event>, i: int, p: S.Package)
    requires LastRecording(trace, i, p)
    ensures p in Replay(start, trace)
    ensures Replay(start, trace)[p] == S.ResolutionRow(trace[i].url, S.Unix(trace[i].at))
    decreases |trace|
  {
    if i < |trace| - 1 {
      LastRecordingReplayed(start, trace[..|trace| - 1], i, p);
      assert !(trace[|trace| - 1].Recorded? && trace[|trace| - 1].package == p);
    }
  }

  function TtlOf(url: string): int {
    if url == "" then RESOLUTION_FAILURE_TTL else RESOLUTION_TTL
  }

  /** No row of the package is still within its TTL. */
  predicate Stale(table: Table, p: S.Package, at: int) {
    p in table ==> at - table[p].fetchedAt * S.SECOND > TtlOf(table[p].registryUrl)
  }

  /** Every attempt is made when whatever the table then holds for its package has expired. */
  ghost predicate Respected(start: Table, trace: seq<Event>) {
    forall j :: 0 <= j < |trace| && trace[j].Attempted? ==>
      Stale(Replay(start, trace[..j]), trace[j].package, trace[j].at)
  }

  /** Between a recording and the next attempt more than its TTL passes, but for the second lost to truncation. */
  ghost predicate Spaced(trace: seq<Event>) {
    forall i, j :: 0 <= i < j < |trace| && trace[j].Attempted? && LastRecording(trace[..j], i, trace[j].package) ==>
      trace[j].at - trace[i].at > TtlOf(trace[i].url) - S.SECOND
  }

  /** The cache answers every read, except to a cancelled run, and nothing is attempted before it was looked up. */
  ghost predicate CacheWorks(round: Round) {
    && round.cached
    && forall i :: 0 <= i < |round.order| ==>
         var t := round.ticks(i); (t.readServed || t.cancelled) && t.readAt <= t.attemptAt
  }

  lemma TruncationLosesASecond(at: int)
    ensures at - S.SECOND < S.Unix(at) * S.SECOND <= at
  {
  }

  lemma RespectedSpaces(start: Table, trace: seq<Event>)
    requires Respected(start, trace)
    ensures Spaced(trace)
  {
    forall i, j | 0 <= i < j < |trace| && trace[j].Attempted? && LastRecording(trace[..j], i, trace[j].package)
      ensures trace[j].at - trace[i].at > TtlOf(trace[i].url) - S.SECOND
    {
      LastRecordingReplayed(start, trace[..j], i, trace[j].package);
      assert Stale(Replay(start, trace[..j]), trace[j].package, trace[j].at);
      TruncationLosesASecond(trace[i].at);
    }
  }

  lemma RespectedExtends(start: Table, trace: seq<Event>, e: Event)
    requires Respected(start, trace)
    requires e.Attempted? ==> Stale(Replay(start, trace), e.package, e.at)
    ensures Respected(start, trace + [e])
  {
    var longer := trace + [e];
    forall j | 0 <= j < |longer| && longer[j].Attempted?
      ensures Stale(Replay(start, longer[..j]), longer[j].package, longer[j].at)
    {
      assert longer[..j] == trace[..j];
      assert j == |trace| ==> trace[..j] == trace;
    }
  }

  /** An attempt follows a failed lookup, so what the table holds for its package has expired. */
  lemma AttemptIsLate(table: Table, p: S.Package, t: Tick)
    requires t.readServed && t.readAt <= t.attemptAt && CacheHit(table, p, t, true).None?
    ensures Stale(table, p, t.attemptAt)
  {
  }

  lemma AttemptSpaced(start: Table, history: seq<Event>, p: S.Package, at: int, putAt: int, url: string)
    requires Respected(start, history) && Stale(Replay(start, history), p, at)
    ensures var attempted := history + [Attempted(p, at)];
      var recorded := attempted + [Recorded(p, putAt, url)];
      && Respected(start, attempted) && Replay(start, attempted) == Replay(start, history)
      && Respected(start, recorded)
      && Replay(start, recorded) == Replay(start, history)[p := S.ResolutionRow(url, S.Unix(putAt))]
  {
    var attempt, record := Attempted(p, at), Recorded(p, putAt, url);
    RespectedExtends(start, history, attempt);
    ReplayStep(start, history, attempt);
    RespectedExtends(start, history + [attempt], record);
    ReplayStep(start, history + [attempt], record);
  }

  /** The trace leads from the start to the table, and its attempts respect the TTLs. */
  ghost predicate Explains(start: Table, trace: seq<Event>, table: Table) {
    table == Replay(start, trace) && Respected(start, trace)
  }

  lemma AppendTwice<T>(a: seq<T>, b: seq<T>, x: T, y: T)
    ensures a + (b + [x] + []) == a + b + [x] && a + (b + [x] + [y]) == a + b + [x] + [y]
  {
  }

  lemma HandleSpaced(round: Round, i: nat, pr: Progress, next: Progress, start: Table, before: seq<Event>)
    requires i < |round.order| && CacheWorks(round) && next == Handle(round, i, pr)
    requires Explains(start, before + pr.trace, pr.table)
    ensures Explains(start, before + next.trace, next.table)
  {
    var p, t, url := round.order[i], round.ticks(i), round.answers(i, round.order[i]);
    var history := before + pr.trace;
    if next.trace != pr.trace {
      AttemptIsLate(pr.table, p, t);
      AttemptSpaced(start, history, p, t.attemptAt, t.putAt, url);
      AppendTwice(before, pr.trace, Attempted(p, t.attemptAt), Recorded(p, t.putAt, url));
    }
  }

  lemma {:induction false} RunSpaced(round: Round, n: nat, table: Table, start: Table, before: seq<Event>)
    requires n <= |round.order| && CacheWorks(round) && Explains(start, before, table)
    ensures var pr := RunTo(round, n, table); Explains(start, before + pr.trace, pr.table)
  {
    if n == 0 {
      assert before + [] == before;
    } else {
      RunSpaced(round, n - 1, table, start, before);
      HandleSpaced(round, n - 1, RunTo(round, n - 1, table), RunTo(round, n, table), start, before);
    }
  }

  /**
   Over any number of runs, from whatever table, the table holds exactly the last recordings over
   what was there, and no attempt is made before the outcome known for its package has expired.
   */
  lemma {:induction false} AttemptsSpaced(rounds: seq<Round>, start: Table)
    requires forall r :: r in rounds ==> CacheWorks(r)
    ensures var (table, trace) := RunAll(rounds, start);
      Explains(start, trace, table) && Spaced(trace)
  {
    if rounds != [] {
      var front, last := rounds[..|rounds| - 1], rounds[|rounds| - 1];
      AttemptsSpaced(front, start);
      var (table, trace) := RunAll(front, start);
      RunSpaced(last, |last.order|, table, start, trace);
    }
    RespectedSpaces(start, RunAll(rounds, start).1);
  }

  // ----- Coverage over successive runs -----

  function Min(a: int, b: int): int { if a < b then a else b }

  /** The driver serves the run at position i, it is not cancelled, and the lookup finds what is recorded. */
  ghost predicate Serves(round: Round, i: nat, table: Table)
    requires i < |round.order|
  {
    var p, t, known := round.order[i], round.ticks(i), RunTo(round, i, table).table;
    t.readServed && t.putServed && !t.cancelled && (p in known ==> CacheHit(known, p, t, true).Some?)
  }

  /** A working cache, no timeout and no expiry, for one run from the table. */
  ghost predicate Undisturbed(round: Round, table: Table) {
    round.cached && forall i: nat :: i < |round.order| ==> Serves(round, i, table)
  }

  ghost predicate AllUndisturbed(rounds: seq<Round>, start: Table) {
    rounds == [] ||
    var front := rounds[..|rounds| - 1];
    AllUndisturbed(front, start) && Undisturbed(rounds[|rounds| - 1], RunAll(front, start).0)
  }

  ghost predicate SamePackages(rounds: seq<Round>, packages: set<S.Package>) {
    forall r :: r in rounds ==> (set p | p in r.order) == packages
  }

  ghost function FirstOf(order: seq<S.Package>, n: nat): set<S.Package>
    requires n <= |order|
  {
    if n == 0 then {} else FirstOf(order, n - 1) + {order[n - 1]}
  }

  lemma {:induction false} FirstOfMembers(order: seq<S.Package>, n: nat, p: S.Package)
    requires n <= |order|
    ensures p in FirstOf(order, n) <==> p in order[..n]
  {
    if n > 0 {
      FirstOfMembers(order, n - 1, p);
      assert order[..n] == order[..n - 1] + [order[n - 1]];
    }
  }

  /**
   An undisturbed step records a package that has no outcome yet while the budget lasts, and
   else leaves the table alone.
   */
  lemma HandleEffect(round: Round, i: nat, table: Table, pr: Progress)
    requires i < |round.order| && round.cached && Serves(round, i, table) && pr == RunTo(round, i, table)
    ensures var p, next := round.order[i], Handle(round, i, pr);
      if p !in pr.table && pr.fetched < MAX_PACKAGES_PER_SCAN
      then next.table.Keys == pr.table.Keys + {p} && next.fetched == pr.fetched + 1
      else next.table == pr.table && next.fetched == pr.fetched
  {
  }

  /** Only packages that were met get a row. */
  lemma {:induction false} RunGrows(round: Round, n: nat, table: Table)
    requires n <= |round.order|
    ensures table.Keys <= RunTo(round, n, table).table.Keys <= table.Keys + FirstOf(round.order, n)
  {
    if n > 0 { RunGrows(round, n - 1, table); }
  }

  /** As many rows were added as packages fetched. */
  ghost predicate Counted(table: Table, pr: Progress) { |pr.table.Keys| == |table.Keys| + pr.fetched }

  lemma HandleCounts(round: Round, i: nat, table: Table, pr: Progress, next: Progress)
    requires i < |round.order| && round.cached && pr == RunTo(round, i, table) && next == Handle(round, i, pr)
    ensures Serves(round, i, table) && Counted(table, pr) ==> Counted(table, next)
  {
    if Serves(round, i, table) { HandleEffect(round, i, table, pr); }
  }

  lemma {:induction false} RunCounts(round: Round, n: nat, table: Table)
    requires n <= |round.order| && Undisturbed(round, table)
    ensures Counted(table, RunTo(round, n, table))
  {
    if n > 0 {
      RunCounts(round, n - 1, table);
      assert Serves(round, n - 1, table);
      HandleCounts(round, n - 1, table, RunTo(round, n - 1, table), RunTo(round, n, table));
    }
  }

  /** Every package that was met has a row, unless the budget is spent. */
  lemma {:induction false} RunReaches(round: Round, n: nat, table: Table)
    requires n <= |round.order| && Undisturbed(round, table)
    ensures var pr := RunTo(round, n, table);
      pr.fetched < MAX_PACKAGES_PER_SCAN ==> FirstOf(round.order, n) <= pr.table.Keys
  {
    if n > 0 {
      RunReaches(round, n - 1, table);
      assert Serves(round, n - 1, table);
      HandleEffect(round, n - 1, table, RunTo(round, n - 1, table));
    }
  }

  /** What is added is added within the packages: up to 20 of them, and all if fewer than 20. */
  lemma CountWithin(before: set<S.Package>, after: set<S.Package>, packages: set<S.Package>, added: nat)
    requires before <= after <= before + packages && |after| == |before| + added && added <= MAX_PACKAGES_PER_SCAN
    requires added < MAX_PACKAGES_PER_SCAN ==> packages <= after
    ensures |after * packages| == Min(|packages|, |before * packages| + MAX_PACKAGES_PER_SCAN)
  {
    assert after == before + (after - before) && after * packages == before * packages + (after - before);
    SubsetSize(after * packages, packages);
    assert packages <= after ==> after * packages == packages;
  }

  lemma RoundCovers(round: Round, table: Table, packages: set<S.Package>)
    requires Undisturbed(round, table) && (set p | p in round.order) == packages
    ensures var next := Run(round, table).table;
      && table.Keys <= next.Keys <= table.Keys + packages
      && |next.Keys * packages| == Min(|packages|, |table.Keys * packages| + MAX_PACKAGES_PER_SCAN)
  {
    var n := |round.order|;
    forall p ensures p in FirstOf(round.order, n) <==> p in packages {
      FirstOfMembers(round.order, n, p);
      assert round.order[..n] == round.order;
    }
    assert FirstOf(round.order, n) == packages;
    RunGrows(round, n, table);
    RunCounts(round, n, table);
    RunReaches(round, n, table);
    RunWithinBudget(round, n, table);
    CountWithin(table.Keys, Run(round, table).table.Keys, packages, Run(round, table).fetched);
  }

  /**
   With the same N packages detected in every scan, in any order, a working cache, no timeout
   and no expiry, every run records outcomes for exactly 20 more of them until all have one.
   */
  lemma {:induction false} Coverage(rounds: seq<Round>, packages: set<S.Package>, start: Table)
    requires AllUndisturbed(rounds, start) && SamePackages(rounds, packages)
    ensures var table := RunAll(rounds, start).0;
      && start.Keys <= table.Keys <= start.Keys + packages
      && |table.Keys * packages| == Min(|packages|, |start.Keys * packages| + MAX_PACKAGES_PER_SCAN * |rounds|)
  {
    if rounds == [] {
      SubsetSize(start.Keys * packages, packages);
    } else {
      var front, last := rounds[..|rounds| - 1], rounds[|rounds| - 1];
      Coverage(front, packages, start);
      RoundCovers(last, RunAll(front, start).0, packages);
      assert RunAll(rounds, start).0 == Run(last, RunAll(front, start).0).table;
    }
  }

  /** So ceil(N / 20) runs cover every package. */
  lemma FullCoverage(rounds: seq<Round>, packages: set<S.Package>, start: Table)
    requires AllUndisturbed(rounds, start) && SamePackages(rounds, packages)
    requires MAX_PACKAGES_PER_SCAN * |rounds| >= |packages|
    ensures packages <= RunAll(rounds, start).0.Keys
  {
    Coverage(rounds, packages, start);
    SubsetSize(RunAll(rounds, start).0.Keys * packages, packages);
  }

  // ----- Runs within a day expire nothing -----

  /** Every read and write is served, and all of them fall into one day but a second. */
  ghost predicate WithinADay(round: Round, since: int) {
    && round.cached
    && forall i :: 0 <= i < |round.order| ==>
         var t := round.ticks(i);
         && t.readServed && t.putServed && !t.cancelled
         && since <= t.putAt && t.readAt - since <= RESOLUTION_FAILURE_TTL - S.SECOND
  }

  ghost predicate Recent(table: Table, since: int) {
    forall p :: p in table ==> table[p].fetchedAt >= S.Unix(since)
  }

  lemma {:induction false} RunRecent(round: Round, n: nat, table: Table, since: int)
    requires n <= |round.order| && WithinADay(round, since) && Recent(table, since)
    ensures Recent(RunTo(round, n, table).table, since)
  {
    if n > 0 {
      RunRecent(round, n - 1, table, since);
      assert S.Unix(round.ticks(n - 1).putAt) >= S.Unix(since);
    }
  }

  /** Such runs are undisturbed, whatever they record. */
  lemma {:induction false} DayIsUndisturbed(rounds: seq<Round>, start: Table, since: int)
    requires Recent(start, since) && forall r :: r in rounds ==> WithinADay(r, since)
    ensures AllUndisturbed(rounds, start) && Recent(RunAll(rounds, start).0, since)
  {
    if rounds != [] {
      var front, last := rounds[..|rounds| - 1], rounds[|rounds| - 1];
      DayIsUndisturbed(front, start, since);
      var table := RunAll(front, start).0;
      forall i: nat | i < |last.order| ensures Serves(last, i, table) {
        RunRecent(last, i, table, since);
        TruncationLosesASecond(since);
      }
      RunRecent(last, |last.order|, table, since);
    }
  }

  // ----- Exactly what one run records, and why nothing may expire -----

  /** The lookup at position i, against the table the run starts from, leads to an attempt if the budget lasts. */
  predicate Misses(round: Round, i: nat, table: Table)
    requires i < |round.order|
  {
    CacheHit(table, round.order[i], round.ticks(i), round.cached).None? && !round.ticks(i).cancelled
  }

  function MissCount(round: Round, n: nat, table: Table): nat
    requires n <= |round.order|
  {
    if n == 0 then 0 else MissCount(round, n - 1, table) + (if Misses(round, n - 1, table) then 1 else 0)
  }

  /** The lookup misses, after fewer than 20 others. */
  predicate WithinBudget(round: Round, i: nat, table: Table)
    requires i < |round.order|
  {
    Misses(round, i, table) && MissCount(round, i, table) < MAX_PACKAGES_PER_SCAN
  }

  predicate SameRow(a: Table, b: Table, p: S.Package) {
    (p in a <==> p in b) && (p in a ==> a[p] == b[p])
  }

  /** The ith package's row after the run is its new outcome if that was attempted and recorded, else the old one. */
  predicate RowAfter(round: Round, i: nat, table: Table, after: Table)
    requires i < |round.order|
  {
    var p, t := round.order[i], round.ticks(i);
    if WithinBudget(round, i, table) && round.cached && t.putServed
    then p in after && after[p] == S.ResolutionRow(round.answers(i, p), S.Unix(t.putAt))
    else SameRow(after, table, p)
  }

  /** What a step does, told from what the run started from. */
  lemma HandleExact(round: Round, i: nat, table: Table, pr: Progress, next: Progress)
    requires i < |round.order| && next == Handle(round, i, pr)
    requires pr.fetched == Min(MissCount(round, i, table), MAX_PACKAGES_PER_SCAN)
    requires SameRow(pr.table, table, round.order[i])
    ensures next.fetched == Min(MissCount(round, i + 1, table), MAX_PACKAGES_PER_SCAN)
    ensures RowAfter(round, i, table, next.table)
    ensures forall p :: p != round.order[i] ==> SameRow(next.table, pr.table, p)
    ensures next.trace != pr.trace <==> WithinBudget(round, i, table)
  {
    assert CacheHit(pr.table, round.order[i], round.ticks(i), round.cached)
      == CacheHit(table, round.order[i], round.ticks(i), round.cached);
  }

  lemma {:induction false} RunExact(round: Round, n: nat, table: Table)
    requires n <= |round.order| && Distinct(round.order)
    ensures RunTo(round, n, table).fetched == Min(MissCount(round, n, table), MAX_PACKAGES_PER_SCAN)
    ensures forall p :: p !in round.order[..n] ==> SameRow(RunTo(round, n, table).table, table, p)
    ensures forall i: nat :: i < n ==> RowAfter(round, i, table, RunTo(round, n, table).table)
  {
    if n > 0 {
      var pr, next := RunTo(round, n - 1, table), RunTo(round, n, table);
      RunExact(round, n - 1, table);
      assert round.order[..n] == round.order[..n - 1] + [round.order[n - 1]];
      assert round.order[n - 1] !in round.order[..n - 1];
      HandleExact(round, n - 1, table, pr, next);
      forall i: nat | i < n ensures RowAfter(round, i, table, next.table) {
        if i < n - 1 {
          assert RowAfter(round, i, table, pr.table) && SameRow(next.table, pr.table, round.order[i]);
        }
      }
    }
  }

  ghost predicate Tried(trace: seq<Event>, p: S.Package) {
    exists e :: e in trace && e.Attempted? && e.package == p
  }

  lemma HandleTries(round: Round, i: nat, pr: Progress, next: Progress, p: S.Package)
    requires i < |round.order| && next == Handle(round, i, pr)
    ensures Tried(next.trace, p) <==> Tried(pr.trace, p) || (next.trace != pr.trace && p == round.order[i])
  {
    if next.trace != pr.trace {
      var attempt := Attempted(round.order[i], round.ticks(i).attemptAt);
      var rest := next.trace[|pr.trace| + 1..];
      assert next.trace == pr.trace + [attempt] + rest;
      assert attempt in next.trace && forall e :: e in rest ==> e.Recorded?;
      forall e ensures e in next.trace <==> e in pr.trace || e == attempt || e in rest {}
    }
  }

  /** The packages attempted are exactly those whose lookup misses while the budget lasts. */
  lemma {:induction false} RunTries(round: Round, n: nat, table: Table, i: nat)
    requires n <= |round.order| && i < |round.order| && Distinct(round.order)
    ensures Tried(RunTo(round, n, table).trace, round.order[i]) <==> i < n && WithinBudget(round, i, table)
  {
    if n > 0 {
      var pr, next := RunTo(round, n - 1, table), RunTo(round, n, table);
      RunTries(round, n - 1, table, i);
      RunExact(round, n - 1, table);
      HandleTries(round, n - 1, pr, next, round.order[i]);
      assert round.order[n - 1] !in round.order[..n - 1];
      HandleExact(round, n - 1, table, pr, next);
      assert round.order[i] == round.order[n - 1] <==> i == n - 1;
    }
  }

  /**
   Exactly what one run does: as many attempts as lookups miss, up to 20, the first ones; and a package that
   has no row gets one exactly if its lookup misses after fewer than 20 others and the write is served.
   */
  lemma RunRecords(round: Round, i: nat, table: Table)
    requires i < |round.order| && Distinct(round.order)
    ensures Run(round, table).fetched == Min(MissCount(round, |round.order|, table), 20)
    ensures Tried(Run(round, table).trace, round.order[i]) <==> WithinBudget(round, i, table)
    ensures RowAfter(round, i, table, Run(round, table).table)
    ensures round.order[i] !in table && round.cached && round.ticks(i).putServed ==>
      (round.order[i] in Run(round, table).table <==> WithinBudget(round, i, table))
  {
    RunExact(round, |round.order|, table);
    RunTries(round, |round.order|, table, i);
  }

  // ----- What one run applies -----

  /** An outcome for the package that may be used: recorded at most seven days ago, or a day if it is a failure. */
  ghost predicate Usable(round: Round, i: nat, table: Table, url: string)
    requires i < |round.order|
  {
    var p, t := round.order[i], round.ticks(i);
    && round.cached && t.readServed && p in table && table[p].registryUrl == url
    && t.readAt - table[p].fetchedAt * 1_000_000_000 <= (if url == "" then 86_400 else 604_800) * 1_000_000_000
  }

  ghost predicate NothingUsable(round: Round, i: nat, table: Table)
    requires i < |round.order|
  {
    forall url :: !Usable(round, i, table, url)
  }

  lemma HitMeans(round: Round, i: nat, table: Table, url: string)
    requires i < |round.order|
    ensures CacheHit(table, round.order[i], round.ticks(i), round.cached) == Some(url) <==> Usable(round, i, table, url)
  {
  }

  /** The positions before n that ask for an attempt: nothing usable, and the run not cancelled. */
  ghost function Asking(round: Round, n: nat, table: Table): set<nat>
    requires n <= |round.order|
  {
    set j: nat | j < n && NothingUsable(round, j, table) && !round.ticks(j).cancelled
  }

  lemma MissesMeans(round: Round, i: nat, table: Table)
    requires i < |round.order|
    ensures Misses(round, i, table) <==> NothingUsable(round, i, table) && !round.ticks(i).cancelled
  {
    var hit := CacheHit(table, round.order[i], round.ticks(i), round.cached);
    forall url { HitMeans(round, i, table, url); }
    if hit.Some? { assert Usable(round, i, table, hit.value); }
  }

  lemma AskingStep(round: Round, n: nat, table: Table)
    requires 0 < n <= |round.order|
    ensures Asking(round, n, table) ==
      Asking(round, n - 1, table) + if Misses(round, n - 1, table) then {n - 1} else {}
  {
    MissesMeans(round, n - 1, table);
  }

  lemma {:induction false} MissCountMeans(round: Round, n: nat, table: Table)
    requires n <= |round.order|
    ensures MissCount(round, n, table) == |Asking(round, n, table)|
  {
    if n > 0 {
      MissCountMeans(round, n - 1, table);
      AskingStep(round, n, table);
    }
  }

  /** What the run has for the ith package: a usable outcome, else the network's answer within the budget. */
  function UrlAt(round: Round, i: nat, table: Table): string
    requires i < |round.order|
  {
    var hit := CacheHit(table, round.order[i], round.ticks(i), round.cached);
    if hit.Some? then hit.value
    else if WithinBudget(round, i, table) then round.answers(i, round.order[i]) else ""
  }

  ghost predicate AppliedAs(round: Round, i: nat, applied: map<S.Package, Stamp>, url: string)
    requires i < |round.order|
  {
    var p := round.order[i];
    if url == "" then p !in applied
    else p in applied && applied[p] == Stamp(url, round.ticks(i).appliedAt)
  }

  lemma HandleApplies(round: Round, i: nat, table: Table, pr: Progress, next: Progress)
    requires i < |round.order| && next == Handle(round, i, pr) && round.order[i] !in pr.applied
    requires pr.fetched == Min(MissCount(round, i, table), MAX_PACKAGES_PER_SCAN)
    requires SameRow(pr.table, table, round.order[i])
    ensures AppliedAs(round, i, next.applied, UrlAt(round, i, table))
    ensures forall p :: p != round.order[i] ==>
      (p in next.applied <==> p in pr.applied) && (p in pr.applied ==> next.applied[p] == pr.applied[p])
  {
    assert CacheHit(pr.table, round.order[i], round.ticks(i), round.cached)
      == CacheHit(table, round.order[i], round.ticks(i), round.cached);
  }

  lemma {:induction false} RunApplied(round: Round, n: nat, table: Table, i: nat)
    requires i < n <= |round.order| && Distinct(round.order)
    ensures AppliedAs(round, i, RunTo(round, n, table).applied, UrlAt(round, i, table))
  {
    var pr, next := RunTo(round, n - 1, table), RunTo(round, n, table);
    RunExact(round, n - 1, table);
    RunAttemptedOnce(round, n - 1, table);
    assert round.order[n - 1] !in round.order[..n - 1];
    HandleApplies(round, n - 1, table, pr, next);
    if i < n - 1 { RunApplied(round, n - 1, table, i); }
  }

  /**
   What a run makes of the ith package: with a usable outcome that is applied, and the network left alone; with
   none, if the run is not cancelled and fewer than 20 before it asked for an attempt, the network's answer is
   applied; else nothing is. An empty URL, a failure, leaves the package as it is.
   */
  lemma RunApplies(round: Round, i: nat, table: Table)
    requires i < |round.order| && Distinct(round.order)
    ensures var run, p := Run(round, table), round.order[i];
      && (forall url :: Usable(round, i, table, url) ==> AppliedAs(round, i, run.applied, url) && !Tried(run.trace, p))
      && (NothingUsable(round, i, table) ==>
           if !round.ticks(i).cancelled && |Asking(round, i, table)| < 20
           then AppliedAs(round, i, run.applied, round.answers(i, p)) && Tried(run.trace, p)
           else p !in run.applied && !Tried(run.trace, p))
  {
    RunApplied(round, |round.order|, table, i);
    RunTries(round, |round.order|, table, i);
    MissCountMeans(round, i, table);
    MissesMeans(round, i, table);
    forall url { HitMeans(round, i, table, url); }
  }

  /** Behind 20 misses nothing is recorded, whatever hits stand among them. */
  lemma MissesStarve(round: Round, i: nat, table: Table)
    requires i < |round.order| && Distinct(round.order) && MissCount(round, i, table) >= MAX_PACKAGES_PER_SCAN
    ensures SameRow(Run(round, table).table, table, round.order[i])
    ensures !Tried(Run(round, table).trace, round.order[i])
  {
    RunRecords(round, i, table);
  }

  lemma {:induction false} MissCountAtLeast(round: Round, n: nat, table: Table, missing: set<S.Package>)
    requires n <= |round.order| && missing <= FirstOf(round.order, n)
    requires forall i: nat :: i < n && round.order[i] in missing ==> Misses(round, i, table)
    ensures MissCount(round, n, table) >= |missing|
  {
    if n == 0 {
      assert missing == {};
    } else {
      var p := round.order[n - 1];
      MissCountAtLeast(round, n - 1, table, missing - {p});
      if p in missing { assert |missing| == |missing - {p}| + 1; } else { assert missing - {p} == missing; }
    }
  }

  /** Wherever the run meets a package of the set, resolving it fails. */
  ghost predicate Fails(round: Round, failing: set<S.Package>) {
    Distinct(round.order) && forall i: nat :: i < |round.order| && round.order[i] in failing ==>
      !round.ticks(i).cancelled && round.answers(i, round.order[i]) == ""
  }

  /** The run meets the whole set before p. */
  ghost predicate Ahead(round: Round, failing: set<S.Package>, p: S.Package) {
    forall i: nat :: i < |round.order| && round.order[i] == p ==> failing <= FirstOf(round.order, i)
  }

  /** What the table has for the set is of no use to the run. */
  ghost predicate NoneUsable(round: Round, failing: set<S.Package>, table: Table) {
    forall i: nat :: i < |round.order| && round.order[i] in failing ==>
      CacheHit(table, round.order[i], round.ticks(i), round.cached).None?
  }

  /** Wherever they meet the same package of the set, a day lies between the recording and the lookup. */
  ghost predicate DaysApart(earlier: Round, later: Round, failing: set<S.Package>) {
    forall i: nat, j: nat | i < |earlier.order| && j < |later.order| ::
      earlier.order[i] in failing && earlier.order[i] == later.order[j] ==>
        later.ticks(j).readAt - earlier.ticks(i).putAt > RESOLUTION_FAILURE_TTL
  }

  /** A row is from the start, or one of the runs recorded a failure. */
  ghost predicate OldOrFailed(rounds: seq<Round>, start: Table, table: Table, f: S.Package) {
    || SameRow(table, start, f)
    || exists r: Round, i: nat :: r in rounds && i < |r.order| && r.order[i] == f
         && f in table && table[f] == S.ResolutionRow("", S.Unix(r.ticks(i).putAt))
  }

  lemma {:induction false} FailingRows(rounds: seq<Round>, start: Table, failing: set<S.Package>, f: S.Package)
    requires f in failing && forall r :: r in rounds ==> Fails(r, failing)
    ensures OldOrFailed(rounds, start, RunAll(rounds, start).0, f)
  {
    if rounds != [] {
      var front, last := rounds[..|rounds| - 1], rounds[|rounds| - 1];
      var before, after := RunAll(front, start).0, RunAll(rounds, start).0;
      assert rounds == front + [last];
      FailingRows(front, start, failing, f);
      assert after == Run(last, before).table && Fails(last, failing);
      RunExact(last, |last.order|, before);
      assert last.order[..|last.order|] == last.order;
      if f in last.order {
        var i: nat :| i < |last.order| && last.order[i] == f;
        assert RowAfter(last, i, before, after) && last in rounds;
      }
      assert forall r :: r in front ==> r in rounds;
    }
  }

  /** So a later run's lookup of it misses. */
  lemma FailingMisses(rounds: seq<Round>, start: Table, table: Table, later: Round, failing: set<S.Package>, j: nat)
    requires j < |later.order| && later.order[j] in failing
    requires Fails(later, failing) && NoneUsable(later, failing, start)
    requires forall r :: r in rounds ==> DaysApart(r, later, failing)
    requires OldOrFailed(rounds, start, table, later.order[j])
    ensures Misses(later, j, table)
  {
    var f := later.order[j];
    if !SameRow(table, start, f) {
      var r: Round, i: nat :| r in rounds && i < |r.order| && r.order[i] == f
        && f in table && table[f] == S.ResolutionRow("", S.Unix(r.ticks(i).putAt));
      assert DaysApart(r, later, failing);
      TruncationLosesASecond(r.ticks(i).putAt);
    }
  }

  lemma FailingSpend(front: seq<Round>, start: Table, last: Round, failing: set<S.Package>, i: nat)
    requires i < |last.order| && |failing| >= MAX_PACKAGES_PER_SCAN && failing <= FirstOf(last.order, i)
    requires forall r :: r in front ==> Fails(r, failing) && DaysApart(r, last, failing)
    requires Fails(last, failing) && NoneUsable(last, failing, start)
    ensures MissCount(last, i, RunAll(front, start).0) >= MAX_PACKAGES_PER_SCAN
  {
    var table := RunAll(front, start).0;
    forall j: nat | j < i && last.order[j] in failing ensures Misses(last, j, table) {
      FailingRows(front, start, failing, last.order[j]);
      FailingMisses(front, start, table, last, failing, j);
    }
    MissCountAtLeast(last, i, table, failing);
  }

  /**
   If 20 packages keep failing, are met before p in every scan, in whatever order and among whatever
   others, and their failures expire from one scan to another, then no number of scans records
   anything for p.
   */
  lemma {:induction false} DailyFailuresStarve(rounds: seq<Round>, start: Table, failing: set<S.Package>, p: S.Package)
    requires |failing| >= MAX_PACKAGES_PER_SCAN
    requires forall r :: r in rounds ==> Fails(r, failing) && Ahead(r, failing, p) && NoneUsable(r, failing, start)
    requires forall j, k :: 0 <= j < k < |rounds| ==> DaysApart(rounds[j], rounds[k], failing)
    ensures SameRow(RunAll(rounds, start).0, start, p)
  {
    if rounds != [] {
      var front, last := rounds[..|rounds| - 1], rounds[|rounds| - 1];
      var table := RunAll(front, start).0;
      assert rounds == front + [last];
      DailyFailuresStarve(front, start, failing, p);
      assert RunAll(rounds, start).0 == Run(last, table).table;
      assert last in rounds && Fails(last, failing) && NoneUsable(last, failing, start);
      RunExact(last, |last.order|, table);
      assert last.order[..|last.order|] == last.order;
      if p in last.order {
        var i: nat :| i < |last.order| && last.order[i] == p;
        forall r | r in front ensures Fails(r, failing) && DaysApart(r, last, failing) {
          var k :| 0 <= k < |front| && front[k] == r;
          assert r in rounds && rounds[k] == r;
        }
        FailingSpend(front, start, last, failing, i);
        assert RowAfter(last, i, table, Run(last, table).table);
      }
    }
  }

  // ----- Scans in which that happens -----

  function Chart(n: nat): S.Package { S.Package("helm", seq(n, _ => 'c')) }

  /** A scan of 21 charts on an even day: everything is served, and no chart can be resolved. */
  function FailingScan(day: nat): Round {
    var at := 2 * day * RESOLUTION_FAILURE_TTL;
    Round(seq(21, i requires 0 <= i < 21 => Chart(i)), true,
          (n: nat) => Tick(at, at, at, at, true, false, true), (n: nat, p: S.Package) => "")
  }

  lemma FailingScanFacts(day: nat)
    ensures var r := FailingScan(day);
      && |r.order| == 21 && r.order[20] == Chart(20) && Distinct(r.order)
      && forall i: nat :: i < 21 ==> r.order[i] == Chart(i)
  {
    forall i: nat, j: nat | i < j ensures Chart(i) != Chart(j) {
      assert |Chart(i).name| == i && |Chart(j).name| == j;
    }
  }

  lemma {:induction false} FirstOfSize(order: seq<S.Package>, n: nat)
    requires n <= |order| && Distinct(order)
    ensures |FirstOf(order, n)| == n
  {
    if n > 0 {
      FirstOfSize(order, n - 1);
      FirstOfMembers(order, n - 1, order[n - 1]);
    }
  }

  lemma FailingScanFails(day: nat, failing: set<S.Package>)
    requires failing == FirstOf(FailingScan(0).order, 20)
    ensures var r := FailingScan(day);
      Fails(r, failing) && Ahead(r, failing, Chart(20)) && NoneUsable(r, failing, map[])
  {
    var r := FailingScan(day);
    FailingScanFacts(day);
    assert r.order == FailingScan(0).order;
    forall i: nat | i < 21 && r.order[i] == Chart(20) ensures i == 20 {
      assert |Chart(i).name| == i && |Chart(20).name| == 20;
    }
  }

  lemma FailingScansApart(j: nat, k: nat, failing: set<S.Package>)
    requires j < k
    ensures DaysApart(FailingScan(j), FailingScan(k), failing)
  {
    assert 2 * k * RESOLUTION_FAILURE_TTL - 2 * j * RESOLUTION_FAILURE_TTL >= 2 * RESOLUTION_FAILURE_TTL;
  }

  /** However often the 21 charts are scanned with everything served, the last one never gets a row. */
  lemma SomeChartStarves(scans: nat)
    ensures var rounds := seq(scans, day requires 0 <= day < scans => FailingScan(day));
      Chart(20) in FailingScan(0).order && Chart(20) !in RunAll(rounds, map[]).0
  {
    var rounds := seq(scans, day requires 0 <= day < scans => FailingScan(day));
    var failing := FirstOf(FailingScan(0).order, 20);
    FailingScanFacts(0);
    FirstOfSize(FailingScan(0).order, 20);
    assert FailingScan(0).order[20] in FailingScan(0).order;
    forall r | r in rounds
      ensures Fails(r, failing) && Ahead(r, failing, Chart(20)) && NoneUsable(r, failing, map[])
    {
      var day: nat :| day < scans && rounds[day] == r;
      FailingScanFails(day, failing);
    }
    forall j, k | 0 <= j < k < |rounds| ensures DaysApart(rounds[j], rounds[k], failing) {
      FailingScansApart(j, k, failing);
    }
    DailyFailuresStarve(rounds, map[], failing, Chart(20));
  }
}
