/** internal/detect: running the registered detectors a scan asks for. */
module Detect {
  import opened Wrappers
  import opened Api

  datatype Found = Found(resources: seq<Resource>, edges: seq<ResourceEdge>)

  /** What a detector reports on this cluster. */
  datatype Report = Reported(found: Found) | NotApplicable | Failed

  datatype Detector = Detector(name: string, report: Report)

  datatype RunError = DetectorFailed(name: string) | UnknownDetector

  predicate Selects(only: seq<string>, d: Detector) { only == [] || d.name in only }

  ghost predicate DistinctNames(detectors: seq<Detector>) {
    forall i, j :: 0 <= i < j < |detectors| ==> detectors[i].name != detectors[j].name
  }

  /** The selected applicable detectors' findings, in registration order. */
  function FoundBy(detectors: seq<Detector>, only: seq<string>): Found {
    if detectors == [] then Found([], [])
    else
      var earlier := FoundBy(detectors[..|detectors| - 1], only);
      var d := detectors[|detectors| - 1];
      if Selects(only, d) && d.report.Reported?
      then Found(earlier.resources + d.report.found.resources, earlier.edges + d.report.found.edges)
      else earlier
  }

  function Matches(detectors: seq<Detector>, only: seq<string>): nat {
    if detectors == [] then 0
    else Matches(detectors[..|detectors| - 1], only) + (if Selects(only, detectors[|detectors| - 1]) then 1 else 0)
  }

  /** The position of the first selected detector that fails, or |detectors|. */
  function FirstFailure(detectors: seq<Detector>, only: seq<string>): (i: nat)
    ensures i <= |detectors| && forall j :: 0 <= j < i ==> !(Selects(only, detectors[j]) && detectors[j].report.Failed?)
    ensures i < |detectors| ==> Selects(only, detectors[i]) && detectors[i].report.Failed?
  {
    if detectors == [] || (Selects(only, detectors[0]) && detectors[0].report.Failed?) then 0
    else 1 + FirstFailure(detectors[1..], only)
  }

  method Run(detectors: seq<Detector>, only: seq<string>) returns (r: Result<Found, RunError>)
    ensures var i := FirstFailure(detectors, only);
      r == if i < |detectors| then Err(DetectorFailed(detectors[i].name))
           else if only != [] && Matches(detectors, only) != |only| then Err(UnknownDetector)
           else Ok(FoundBy(detectors, only))
  {
    var result := Found([], []);
    var matched := 0;
    var i := 0;
    while i < |detectors|
      invariant 0 <= i <= |detectors|
      invariant result == FoundBy(detectors[..i], only) && matched == Matches(detectors[..i], only)
      invariant forall j :: 0 <= j < i ==> !(Selects(only, detectors[j]) && detectors[j].report.Failed?)
    {
      var d := detectors[i];
      assert detectors[..i + 1][..i] == detectors[..i];
      i := i + 1;
      if |only| > 0 && d.name !in only { continue; }
      matched := matched + 1;
      match d.report {
        case NotApplicable => continue;
        case Failed => return Err(DetectorFailed(d.name));
        case Reported(part) => result := Found(result.resources + part.resources, result.edges + part.edges);
      }
    }
    assert detectors[..i] == detectors;
    if |only| > 0 && matched != |only| { return Err(UnknownDetector); }
    r := Ok(result);
  }

  // ----- What a run finds -----

  /** The detector is asked: the filter is empty, or names it. */
  predicate Asked(only: seq<string>, d: Detector) { |only| == 0 || exists i :: 0 <= i < |only| && only[i] == d.name }

  lemma {:induction false} FoundConcat(a: seq<Detector>, b: seq<Detector>, only: seq<string>)
    ensures FoundBy(a + b, only) ==
      Found(FoundBy(a, only).resources + FoundBy(b, only).resources, FoundBy(a, only).edges + FoundBy(b, only).edges)
  {
    if b == [] {
      assert a + b == a;
    } else {
      assert (a + b)[..|a + b| - 1] == a + b[..|b| - 1];
      FoundConcat(a, b[..|b| - 1], only);
    }
  }

  /**
   The findings of a list of detectors are those of its parts, one after the other; and those of one detector are
   what it reports if it is asked and applies, else nothing.
   */
  lemma FindingsMean(a: seq<Detector>, d: Detector, b: seq<Detector>, only: seq<string>)
    ensures FoundBy([], only) == Found([], [])
    ensures
      var found := if Asked(only, d) && d.report.Reported? then d.report.found else Found([], []);
      FoundBy(a + [d] + b, only) ==
      Found(FoundBy(a, only).resources + found.resources + FoundBy(b, only).resources,
            FoundBy(a, only).edges + found.edges + FoundBy(b, only).edges)
  {
    FoundConcat(a + [d], b, only);
    FoundConcat(a, [d], only);
    assert [d][..0] == [];
    assert FoundBy([d][..0], only) == Found([], []);
    assert Selects(only, d) <==> Asked(only, d);
  }

  /** A run fails with the first detector asked that fails, and with an empty filter in no other way. */
  lemma FailureMeans(detectors: seq<Detector>, only: seq<string>, i: nat)
    requires i < |detectors|
    ensures FirstFailure(detectors, only) == i <==>
      && Asked(only, detectors[i]) && detectors[i].report.Failed?
      && forall j :: 0 <= j < i ==> !(Asked(only, detectors[j]) && detectors[j].report.Failed?)
    ensures FirstFailure(detectors, only) == |detectors| <==>
      forall j :: 0 <= j < |detectors| ==> !(Asked(only, detectors[j]) && detectors[j].report.Failed?)
  {
    forall d: Detector ensures Selects(only, d) <==> Asked(only, d) {}
  }

  function NamesOf(detectors: seq<Detector>): set<string> { set d | d in detectors :: d.name }

  function SetOf(s: seq<string>): set<string> { set x | x in s }

  lemma LastNameIsNew(detectors: seq<Detector>)
    requires detectors != [] && DistinctNames(detectors)
    ensures var front, last := detectors[..|detectors| - 1], detectors[|detectors| - 1];
      DistinctNames(front) && last.name !in NamesOf(front) && NamesOf(detectors) == NamesOf(front) + {last.name}
  {
    var front, last := detectors[..|detectors| - 1], detectors[|detectors| - 1];
    assert detectors == front + [last];
    forall d | d in front ensures d.name != last.name {
      var i :| 0 <= i < |front| && front[i] == d;
      assert detectors[i] == d;
    }
  }

  lemma OneMoreName(names: set<string>, name: string, only: set<string>)
    requires name !in names
    ensures |(names + {name}) * only| == |names * only| + (if name in only then 1 else 0)
  {
    assert (names + {name}) * only == names * only + (if name in only then {name} else {});
  }

  /** With distinct names, as many detectors match as the filter and the registry have names in common. */
  lemma {:induction false} MatchesCommonNames(detectors: seq<Detector>, only: seq<string>)
    requires DistinctNames(detectors) && only != []
    ensures Matches(detectors, only) == |NamesOf(detectors) * SetOf(only)|
  {
    if detectors == [] {
      assert NamesOf(detectors) * SetOf(only) == {};
    } else {
      var front, last := detectors[..|detectors| - 1], detectors[|detectors| - 1];
      LastNameIsNew(detectors);
      MatchesCommonNames(front, only);
      OneMoreName(NamesOf(front), last.name, SetOf(only));
      assert last.name in only <==> last.name in SetOf(only);
    }
  }

  ghost predicate NoRepeats(s: seq<string>) {
    forall i, j :: 0 <= i < j < |s| ==> s[i] != s[j]
  }

  lemma NoRepeatsStep(s: seq<string>, x: string)
    ensures NoRepeats(s + [x]) <==> NoRepeats(s) && x !in s
  {
    var longer := s + [x];
    assert longer[|s|] == x && forall i :: 0 <= i < |s| ==> longer[i] == s[i];
    if x in s {
      var i :| 0 <= i < |s| && s[i] == x;
      assert longer[i] == longer[|s|];
    }
  }

  /** A list has as many elements as its set exactly when nothing repeats. */
  lemma {:induction false} SetSize(s: seq<string>)
    ensures |SetOf(s)| <= |s|
    ensures |SetOf(s)| == |s| <==> NoRepeats(s)
  {
    if s != [] {
      var front, last := s[..|s| - 1], s[|s| - 1];
      assert s == front + [last];
      SetSize(front);
      NoRepeatsStep(front, last);
      assert SetOf(s) == SetOf(front) + {last};
      assert last in front ==> SetOf(s) == SetOf(front);
    }
  }

  /** The matched-count check passes exactly when the filter repeats nothing and names only registered detectors. */
  ghost predicate CheckIsRight(detectors: seq<Detector>, only: seq<string>) {
    Matches(detectors, only) == |only| <==> NoRepeats(only) && SetOf(only) <= NamesOf(detectors)
  }

  lemma CountCheckExact(detectors: seq<Detector>, only: seq<string>)
    requires DistinctNames(detectors) && only != []
    ensures CheckIsRight(detectors, only)
  {
    MatchesCommonNames(detectors, only);
    SetSize(only);
    var common := NamesOf(detectors) * SetOf(only);
    SubsetSize(common, SetOf(only));
    if SetOf(only) <= NamesOf(detectors) { assert common == SetOf(only); }
  }

  lemma {:induction false} MatchesOnce(detectors: seq<Detector>, only: seq<string>, i: nat)
    requires i < |detectors| && Selects(only, detectors[i])
    ensures Matches(detectors, only) >= 1
  {
    if i < |detectors| - 1 {
      MatchesOnce(detectors[..|detectors| - 1], only, i);
    }
  }

  /** Two selected detectors are two matches. */
  lemma {:induction false} MatchesTwice(detectors: seq<Detector>, only: seq<string>, i: nat, j: nat)
    requires i < j < |detectors| && Selects(only, detectors[i]) && Selects(only, detectors[j])
    ensures Matches(detectors, only) >= 2
  {
    var front := detectors[..|detectors| - 1];
    if j < |front| {
      MatchesTwice(front, only, i, j);
    } else {
      MatchesOnce(front, only, i);
    }
  }

  /** The check is right about every filter exactly when the registered names are distinct. */
  lemma CheckNeedsDistinctNames(detectors: seq<Detector>)
    ensures DistinctNames(detectors) <==> forall only :: only != [] ==> CheckIsRight(detectors, only)
  {
    if DistinctNames(detectors) {
      forall only: seq<string> | only != [] ensures CheckIsRight(detectors, only) { CountCheckExact(detectors, only); }
    } else {
      var i, j :| 0 <= i < j < |detectors| && detectors[i].name == detectors[j].name;
      var only := [detectors[i].name];
      MatchesTwice(detectors, only, i, j);
      assert detectors[i] in detectors;
      assert SetOf(only) <= NamesOf(detectors) && NoRepeats(only);
      assert !CheckIsRight(detectors, only);
    }
  }

  /** It can err either way: with two detectors of one name it also lets an unregistered name through. */
  lemma UnknownNamePasses()
    ensures exists detectors, only ::
      only != [] && Matches(detectors, only) == |only| && !(SetOf(only) <= NamesOf(detectors))
  {
    var d := Detector("a", NotApplicable);
    var detectors, only := [d, d], ["a", "b"];
    assert detectors[..1] == [d] && [d][..0] == [];
    assert Matches([d], only) == 1;
    assert Matches(detectors, only) == |only|;
    assert "b" in SetOf(only) && "b" !in NamesOf(detectors);
  }
}
