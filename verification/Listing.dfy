/** What one more package on Artifact Hub can change about a resolution (internal/resolve/helm.go). */
module Listing {
  import opened Wrappers
  import opened Orders
  import opened Upstream
  import opened Helm
  import Semver

  // ----- One more representative -----

  /** The representatives that further packages add to those kept so far. */
  function Later(up: Client, name: string, kept: seq<HubPackage>, packages: seq<HubPackage>): seq<HubPackage> {
    if packages == [] then []
    else
      var added := Later(up, name, kept, packages[..|packages| - 1]);
      var p := packages[|packages| - 1];
      if Eligible(up, name, p) && !(exists q :: q in kept + added && SameRepository(up, p, q))
      then added + [p] else added
  }

  lemma RepresentativesStep(up: Client, name: string, s: seq<HubPackage>, p: HubPackage)
    ensures var kept := Representatives(up, name, s);
      Representatives(up, name, s + [p]) ==
      if Eligible(up, name, p) && !(exists q :: q in kept && SameRepository(up, p, q)) then kept + [p] else kept
  {
    assert (s + [p])[..|s|] == s;
  }

  lemma LaterStep(up: Client, name: string, kept: seq<HubPackage>, s: seq<HubPackage>, p: HubPackage)
    ensures var added := Later(up, name, kept, s);
      Later(up, name, kept, s + [p]) ==
      if Eligible(up, name, p) && !(exists q :: q in kept + added && SameRepository(up, p, q))
      then added + [p] else added
  {
    assert (s + [p])[..|s|] == s;
  }

  lemma {:induction false} RepresentativesConcat(up: Client, name: string, a: seq<HubPackage>, b: seq<HubPackage>)
    ensures Representatives(up, name, a + b) ==
      Representatives(up, name, a) + Later(up, name, Representatives(up, name, a), b)
  {
    if b == [] {
      assert a + b == a;
    } else {
      var front, p := b[..|b| - 1], b[|b| - 1];
      var kept := Representatives(up, name, a);
      var added, reps := Later(up, name, kept, front), Representatives(up, name, a + front);
      RepresentativesConcat(up, name, a, front);
      assert reps == kept + added;
      assert a + b == (a + front) + [p] && b == front + [p];
      RepresentativesStep(up, name, a + front, p);
      LaterStep(up, name, kept, front, p);
      assert reps + [p] == kept + (added + [p]);
    }
  }

  /** Of another repository than x. */
  function Other(up: Client, x: HubPackage): HubPackage -> bool {
    (p: HubPackage) => !SameRepository(up, x, p)
  }

  /** A package that joins those kept is in the way of exactly the later ones of its repository. */
  lemma {:induction false} LaterFiltered(up: Client, name: string, kept: seq<HubPackage>, x: HubPackage,
                                         b: seq<HubPackage>)
    requires forall q :: q in kept ==> !SameRepository(up, x, q)
    ensures Later(up, name, kept + [x], b) == Filter(Other(up, x), Later(up, name, kept, b))
  {
    if b != [] {
      var front, p := b[..|b| - 1], b[|b| - 1];
      LaterFiltered(up, name, kept, x, front);
      var added := Later(up, name, kept, front);
      var left := Filter(Other(up, x), added);
      FilterMembers(Other(up, x), added);
      FilterConcat(Other(up, x), added, [p]);
      assert Filter(Other(up, x), [p]) == if Other(up, x)(p) then [p] else [];
      if Eligible(up, name, p) {
        if SameRepository(up, x, p) {
          assert x in kept + [x] + left && SameRepository(up, p, x);
        } else {
          forall q ensures q in kept + [x] + left && SameRepository(up, p, q) <==>
            q in kept + added && SameRepository(up, p, q) {}
        }
      }
    }
  }

  // ----- One more candidate, perhaps for the fifth -----

  lemma {:induction false} GradedConcat(up: Client, d: Deployed, s: seq<HubPackage>, t: seq<HubPackage>)
    ensures GradedCandidates(up, d, s + t) == GradedCandidates(up, d, s) + GradedCandidates(up, d, t)
  {
    if t == [] {
      assert s + t == s;
    } else {
      assert (s + t)[..|s + t| - 1] == s + t[..|t| - 1];
      GradedConcat(up, d, s, t[..|t| - 1]);
    }
  }

  /** The candidates in `out` give way to those in `added`, which are at least as trusted, as are the others. */
  ghost predicate GivesWay(base: multiset<Candidate>, out: multiset<Candidate>, added: multiset<Candidate>) {
    && (forall b, f :: b in base && f in out ==> !LessTrusted(b.pkg, f.pkg))
    && (forall x, f :: x in added && f in out ==> !LessTrusted(x.pkg, f.pkg))
  }

  lemma DominatesInstead(base: multiset<Candidate>, out: multiset<Candidate>, added: multiset<Candidate>, w: Candidate,
                         c: Candidate)
    requires GivesWay(base, out, added) && Dominates(base + out, w) && Dominates(base + added, c)
    ensures c == w || (c in added && !LessTrusted(c.pkg, w.pkg) && (w in base ==> LessTrusted(w.pkg, c.pkg)))
  {
    assert w in base + out && c in base + added;
    if w in base {
      assert w in base + added;
      assert c in base ==> c in base + out;
    } else if c in base {
      assert c in base + out && w in out;
    }
  }

  lemma OnlyOfficialInstead(base: multiset<Candidate>, out: multiset<Candidate>, added: multiset<Candidate>,
                            w: Candidate, c: Candidate)
    requires GivesWay(base, out, added) && OnlyOfficial(base + out, w) && OnlyOfficial(base + added, c)
    ensures c == w || (c in added && !LessTrusted(c.pkg, w.pkg) && w !in base)
  {
    assert w in base + out && c in base + added;
    if w in base {
      assert w in base + added;
    } else if c in base {
      assert c in base + out;
    }
  }

  lemma WinsInstead(up: Client, d: Deployed, base: multiset<Candidate>, out: multiset<Candidate>,
                    added: multiset<Candidate>, w: Candidate, c: Candidate)
    requires GivesWay(base, out, added) && Graded(up, d, base + out) && Graded(up, d, base + added)
    requires Wins(d, base + out, w) && Wins(d, base + added, c)
    ensures c == w || (c in added && !LessTrusted(c.pkg, w.pkg) && (w in base ==> LessTrusted(w.pkg, c.pkg)))
  {
    WinnerEarned(up, d, base + out, w);
    WinnerEarned(up, d, base + added, c);
    if d.identity != {} {
      DominatesInstead(base, out, added, w, c);
    } else {
      OnlyOfficialInstead(base, out, added, w, c);
    }
  }

  // ----- One more package in the listing -----

  /** Ranked without ties. */
  ghost predicate Ranked(r: seq<HubPackage>) {
    forall i, j :: 0 <= i < j < |r| ==> RanksBefore(r[i], r[j])
  }

  function WithAt(r: seq<HubPackage>, k: nat, x: HubPackage): seq<HubPackage>
    requires k <= |r|
  {
    r[..k] + [x] + r[k..]
  }

  /** How many of the ranked stay shortlisted behind one that joins them. */
  function Staying(r: seq<HubPackage>): (e: nat)
    ensures e <= |r|
  {
    if |r| < MAX_CANDIDATE_FETCHES then |r| else MAX_CANDIDATE_FETCHES - 1
  }

  /** The shortlisted package that has to go. */
  function Displaced(r: seq<HubPackage>): seq<HubPackage> {
    if |r| < MAX_CANDIDATE_FETCHES then [] else [r[MAX_CANDIDATE_FETCHES - 1]]
  }

  /** A full shortlist drops its fifth for one that ranks before it; otherwise nothing is dropped. */
  lemma CutoffWithAt(r: seq<HubPackage>, k: nat, x: HubPackage)
    requires k <= |r|
    ensures Cutoff(r) == r[..Staying(r)] + Displaced(r)
    ensures k < MAX_CANDIDATE_FETCHES ==> k <= Staying(r) && Cutoff(WithAt(r, k, x)) == r[..k] + [x] + r[k..Staying(r)]
    ensures k >= MAX_CANDIDATE_FETCHES ==> Cutoff(WithAt(r, k, x)) == Cutoff(r)
  {
    if |r| < MAX_CANDIDATE_FETCHES {
      assert r[..|r|] == r;
    }
  }

  /** Of those ranked before it, none is less trusted. */
  lemma RankedTrust(p: HubPackage, q: HubPackage)
    requires RanksBefore(p, q)
    ensures !LessTrusted(p, q)
  {
  }

  lemma SplitCandidates(up: Client, d: Deployed, r: seq<HubPackage>, k: nat, x: HubPackage)
    requires k < MAX_CANDIDATE_FETCHES && k <= |r|
    ensures var base := multiset(GradedCandidates(up, d, r[..Staying(r)]));
      && multiset(GradedCandidates(up, d, Cutoff(r))) == base + multiset(GradedCandidates(up, d, Displaced(r)))
      && multiset(GradedCandidates(up, d, Cutoff(WithAt(r, k, x)))) == base + multiset(GradedCandidates(up, d, [x]))
  {
    CutoffWithAt(r, k, x);
    var e := Staying(r);
    assert r[..e] == r[..k] + r[k..e];
    GradedConcat(up, d, r[..e], Displaced(r));
    GradedConcat(up, d, r[..k], r[k..e]);
    GradedConcat(up, d, r[..k] + [x], r[k..e]);
    GradedConcat(up, d, r[..k], [x]);
  }

  lemma BaseRanksBefore(up: Client, d: Deployed, r: seq<HubPackage>)
    requires Ranked(r)
    ensures forall b, f ::
      b in GradedCandidates(up, d, r[..Staying(r)]) && f in GradedCandidates(up, d, Displaced(r)) ==>
        !LessTrusted(b.pkg, f.pkg)
  {
    var e := Staying(r);
    CandidatesExamined(up, d, r[..e]);
    CandidatesExamined(up, d, Displaced(r));
    forall b, f | b in GradedCandidates(up, d, r[..e]) && f in GradedCandidates(up, d, Displaced(r))
      ensures !LessTrusted(b.pkg, f.pkg)
    {
      assert f.pkg == r[e];
      var i :| 0 <= i < e && r[..e][i] == b.pkg;
      RankedTrust(r[i], r[e]);
    }
  }

  lemma NewcomerGivesWay(up: Client, d: Deployed, r: seq<HubPackage>, k: nat, x: HubPackage)
    requires Ranked(r) && k < MAX_CANDIDATE_FETCHES && k <= |r| && forall i :: k <= i < |r| ==> RanksBefore(x, r[i])
    ensures GivesWay(multiset(GradedCandidates(up, d, r[..Staying(r)])),
                     multiset(GradedCandidates(up, d, Displaced(r))), multiset(GradedCandidates(up, d, [x])))
  {
    BaseRanksBefore(up, d, r);
    CandidatesExamined(up, d, Displaced(r));
    CandidatesExamined(up, d, [x]);
    forall f | f in GradedCandidates(up, d, Displaced(r))
      ensures forall a :: a in GradedCandidates(up, d, [x]) ==> !LessTrusted(a.pkg, f.pkg)
    {
      assert f.pkg == r[Staying(r)];
      RankedTrust(x, r[Staying(r)]);
    }
  }

  lemma NotBeforeItself(p: HubPackage)
    ensures !RanksBefore(p, p)
  {
    ByRankPreorder();
  }

  /** What is shortlisted with and without x was not displaced. */
  lemma NotDisplaced(r: seq<HubPackage>, k: nat, x: HubPackage, p: HubPackage)
    requires Ranked(r) && x !in r && k < MAX_CANDIDATE_FETCHES && k <= |r|
    requires p in Cutoff(r) && p in Cutoff(WithAt(r, k, x))
    ensures p !in Displaced(r)
  {
    var e := Staying(r);
    CutoffWithAt(r, k, x);
    assert p in r[..k] || p in r[k..e];
    if |r| >= MAX_CANDIDATE_FETCHES {
      forall i | 0 <= i < e ensures r[i] != r[e] { NotBeforeItself(r[e]); }
    }
  }

  /** A winner whose package is still shortlisted was not the displaced one. */
  lemma StayingInBase(up: Client, d: Deployed, r: seq<HubPackage>, k: nat, x: HubPackage, w: Candidate)
    requires Ranked(r) && x !in r && k < MAX_CANDIDATE_FETCHES && k <= |r|
    requires w in multiset(GradedCandidates(up, d, Cutoff(r))) && w.pkg in Cutoff(WithAt(r, k, x))
    ensures w in multiset(GradedCandidates(up, d, r[..Staying(r)]))
  {
    SplitCandidates(up, d, r, k, x);
    CandidatesExamined(up, d, Cutoff(r));
    assert w in GradedCandidates(up, d, Cutoff(r)) && w.pkg in Cutoff(r);
    NotDisplaced(r, k, x, w.pkg);
    CandidatesExamined(up, d, Displaced(r));
    assert w !in GradedCandidates(up, d, Displaced(r));
  }

  lemma Newcomer(up: Client, d: Deployed, r: seq<HubPackage>, k: nat, x: HubPackage, w: Candidate, c: Candidate)
    requires Ranked(r) && x !in r && k <= |r| && forall i :: k <= i < |r| ==> RanksBefore(x, r[i])
    requires Wins(d, multiset(GradedCandidates(up, d, Cutoff(r))), w)
    requires Wins(d, multiset(GradedCandidates(up, d, Cutoff(WithAt(r, k, x)))), c)
    ensures c == w || (c.pkg == x && !LessTrusted(x, w.pkg)
                       && (w.pkg in Cutoff(WithAt(r, k, x)) ==> LessTrusted(w.pkg, x)))
  {
    CutoffWithAt(r, k, x);
    if k >= MAX_CANDIDATE_FETCHES {
      WinnerUnique(d, multiset(GradedCandidates(up, d, Cutoff(r))), w, c);
    } else {
      var e := Staying(r);
      var base := multiset(GradedCandidates(up, d, r[..e]));
      var out := multiset(GradedCandidates(up, d, Displaced(r)));
      var added := multiset(GradedCandidates(up, d, [x]));
      SplitCandidates(up, d, r, k, x);
      CandidatesGraded(up, d, Cutoff(r));
      CandidatesGraded(up, d, Cutoff(WithAt(r, k, x)));
      NewcomerGivesWay(up, d, r, k, x);
      WinsInstead(up, d, base, out, added, w, c);
      CandidatesExamined(up, d, [x]);
      if w.pkg in Cutoff(WithAt(r, k, x)) {
        StayingInBase(up, d, r, k, x, w);
      }
    }
  }

  ghost function RankedOf(up: Client, name: string, packages: seq<HubPackage>): (r: seq<HubPackage>)
    ensures Ranked(r) && |r| == |Representatives(up, name, packages)| && Shortlisted(up, name, packages) == Cutoff(r)
    ensures forall q :: q in r <==> q in Representatives(up, name, packages)
  {
    ByRankPreorder();
    var reps := Representatives(up, name, packages);
    var r := Arrange(ByRank, reps);
    RepresentativesCover(up, name, packages);
    RankedStrictly(up, reps, r);
    StablePermutes(ByRank, reps, r);
    r
  }

  lemma {:induction false} LaterFrom(up: Client, name: string, kept: seq<HubPackage>, packages: seq<HubPackage>)
    ensures forall q :: q in Later(up, name, kept, packages) ==> q in packages && Eligible(up, name, q)
  {
    if packages != [] {
      LaterFrom(up, name, kept, packages[..|packages| - 1]);
      assert packages[|packages| - 1] in packages;
    }
  }

  /** z is new among the ranked, and takes its place by rank. */
  ghost predicate Joins(r: seq<HubPackage>, z: HubPackage, more: seq<HubPackage>) {
    var k := InsertAt(ByRank, r, z);
    z !in r && more == WithAt(r, k, z) && forall i :: k <= i < |r| ==> RanksBefore(z, r[i])
  }

  lemma OtherJoins(up: Client, s: seq<HubPackage>, z: HubPackage, t: seq<HubPackage>)
    requires forall q :: q in s + t ==> !SameRepository(up, z, q)
    ensures TotalPreorder(ByRank) && Joins(Arrange(ByRank, s + t), z, Arrange(ByRank, s + [z] + t))
  {
    ByRankPreorder();
    forall q | q in t ensures !(ByRank(z, q) && ByRank(q, z)) {
      assert q in s + t;
      if ByRank(z, q) && ByRank(q, z) { RankTieSameUrl(z, q); }
    }
    ArrangeInsert(ByRank, s, z, t);
    InsertLastAt(ByRank, Arrange(ByRank, s + t), z);
    StablePermutes(ByRank, s + t, Arrange(ByRank, s + t));
    assert SameRepository(up, z, z);
  }

  /** The representatives of other repositories than that of x, ranked. */
  ghost function Core(up: Client, name: string, a: seq<HubPackage>, x: HubPackage, b: seq<HubPackage>)
    : seq<HubPackage>
  {
    ByRankPreorder();
    var kept := Representatives(up, name, a);
    Arrange(ByRank, kept + Filter(Other(up, x), Later(up, name, kept, b)))
  }

  lemma OthersDiffer(up: Client, t: seq<HubPackage>, x: HubPackage, i: nat)
    requires DistinctRepositories(up, t) && i < |t| && SameRepository(up, x, t[i])
    ensures forall q :: q in t[..i] ==> Other(up, x)(q)
    ensures forall q :: q in t[i + 1..] ==> Other(up, x)(q)
  {
    forall j | 0 <= j < i ensures !SameRepository(up, x, t[j]) { assert !SameRepository(up, t[j], t[i]); }
    forall j | i < j < |t| ensures !SameRepository(up, x, t[j]) { assert !SameRepository(up, t[i], t[j]); }
  }

  lemma WithoutAt(up: Client, t: seq<HubPackage>, x: HubPackage, i: nat)
    requires DistinctRepositories(up, t) && i < |t| && SameRepository(up, x, t[i])
    ensures Filter(Other(up, x), t) == t[..i] + t[i + 1..]
  {
    OthersDiffer(up, t, x, i);
    SplitAt(t, i);
    FilterAllBut(Other(up, x), t[..i], t[i], t[i + 1..]);
  }

  lemma PlaceHolderJoins(up: Client, s: seq<HubPackage>, t: seq<HubPackage>, x: HubPackage, i: nat)
    requires i < |t| && SameRepository(up, x, t[i])
    requires forall q :: q in s + (t[..i] + t[i + 1..]) ==> !SameRepository(up, x, q)
    ensures TotalPreorder(ByRank) && Joins(Arrange(ByRank, s + (t[..i] + t[i + 1..])), t[i], Arrange(ByRank, s + t))
  {
    var y, before, after := t[i], s + t[..i], t[i + 1..];
    assert before + after == s + (t[..i] + t[i + 1..]);
    assert before + [y] + after == s + t;
    forall q | q in before + after ensures !SameRepository(up, y, q) {
      assert !SameRepository(up, x, q);
    }
    OtherJoins(up, before, y, after);
  }

  lemma DistinctTail(up: Client, s: seq<HubPackage>, t: seq<HubPackage>)
    requires DistinctRepositories(up, s + t)
    ensures DistinctRepositories(up, t)
  {
    var all := s + t;
    assert forall i :: 0 <= i < |t| ==> t[i] == all[|s| + i];
  }

  lemma LaterDistinct(up: Client, name: string, a: seq<HubPackage>, b: seq<HubPackage>)
    ensures DistinctRepositories(up, Later(up, name, Representatives(up, name, a), b))
  {
    var s, t := Representatives(up, name, a), Later(up, name, Representatives(up, name, a), b);
    RepresentativesConcat(up, name, a, b);
    RepresentativesCover(up, name, a + b);
    DistinctTail(up, s, t);
  }

  lemma XJoins(up: Client, name: string, a: seq<HubPackage>, x: HubPackage, b: seq<HubPackage>)
    requires Eligible(up, name, x) && forall q :: q in Representatives(up, name, a) ==> !SameRepository(up, x, q)
    ensures Joins(Core(up, name, a, x, b), x, RankedOf(up, name, a + [x] + b))
  {
    var s := Representatives(up, name, a);
    var t := Later(up, name, s, b);
    assert (a + [x])[..|a|] == a;
    RepresentativesConcat(up, name, a + [x], b);
    LaterFiltered(up, name, s, x, b);
    FilterMembers(Other(up, x), t);
    OtherJoins(up, s, x, Filter(Other(up, x), t));
  }

  /** The representative of x's repository, if there is one, joins the same core. */
  lemma YJoins(up: Client, name: string, a: seq<HubPackage>, x: HubPackage, b: seq<HubPackage>, i: nat)
    requires forall q :: q in Representatives(up, name, a) ==> !SameRepository(up, x, q)
    requires var t := Later(up, name, Representatives(up, name, a), b); i < |t| && SameRepository(up, x, t[i])
    ensures Joins(Core(up, name, a, x, b), Later(up, name, Representatives(up, name, a), b)[i],
                  RankedOf(up, name, a + b))
  {
    var s := Representatives(up, name, a);
    var t := Later(up, name, s, b);
    RepresentativesConcat(up, name, a, b);
    LaterDistinct(up, name, a, b);
    WithoutAt(up, t, x, i);
    FilterMembers(Other(up, x), t);
    PlaceHolderJoins(up, s, t, x, i);
  }

  /** x joins the core of what is ranked without it: all of that, or all but the one of x's repository. */
  lemma CoreListed(up: Client, name: string, a: seq<HubPackage>, x: HubPackage, b: seq<HubPackage>)
    requires Eligible(up, name, x) && forall q :: q in Representatives(up, name, a) ==> !SameRepository(up, x, q)
    ensures var core, r := Core(up, name, a, x, b), RankedOf(up, name, a + b);
      && Joins(core, x, RankedOf(up, name, a + [x] + b))
      && (r == core || exists y ::
           y in b && Eligible(up, name, y) && SameRepository(up, x, y) && Joins(core, y, r))
  {
    XJoins(up, name, a, x, b);
    var t := Later(up, name, Representatives(up, name, a), b);
    LaterFrom(up, name, Representatives(up, name, a), b);
    if i :| 0 <= i < |t| && SameRepository(up, x, t[i]) {
      YJoins(up, name, a, x, b, i);
      assert t[i] in t;
    } else {
      RepresentativesConcat(up, name, a, b);
      FilterAll(Other(up, x), t);
    }
  }

  /** An eligible package of a new repository joins all the ranked, wherever it is listed. */
  lemma NewListed(up: Client, name: string, a: seq<HubPackage>, x: HubPackage, b: seq<HubPackage>)
    requires Eligible(up, name, x) && forall q :: q in b && Eligible(up, name, q) ==> !SameRepository(up, x, q)
    requires forall q :: q in Representatives(up, name, a) ==> !SameRepository(up, x, q)
    ensures Joins(RankedOf(up, name, a + b), x, RankedOf(up, name, a + [x] + b))
  {
    CoreListed(up, name, a, x, b);
  }

  /** One that is not eligible, or whose repository is represented already, changes nothing. */
  lemma OldListed(up: Client, name: string, a: seq<HubPackage>, x: HubPackage, b: seq<HubPackage>)
    requires Eligible(up, name, x) ==> exists q :: q in Representatives(up, name, a) && SameRepository(up, x, q)
    ensures RankedOf(up, name, a + [x] + b) == RankedOf(up, name, a + b)
  {
    assert (a + [x])[..|a|] == a;
    RepresentativesConcat(up, name, a, b);
    RepresentativesConcat(up, name, a + [x], b);
  }

  ghost function TheWinner(d: Deployed, results: multiset<Candidate>): (c: Candidate)
    requires Winner(d, results).Some?
    ensures Wins(d, results, c) && Winner(d, results) == Some(c.pkg) && c in results
  {
    var c :| Wins(d, results, c);
    assert forall a :: Wins(d, results, a) ==> a == c by {
      forall a | Wins(d, results, a) ensures a == c { WinnerUnique(d, results, a, c); }
    }
    c
  }

  lemma DominatorStays(base: multiset<Candidate>, out: multiset<Candidate>, added: multiset<Candidate>, w: Candidate,
                       c: Candidate)
    requires Dominates(base + out, w) && Dominates(base + added, c) && w in base
    ensures c == w || (c in added && LessTrusted(w.pkg, c.pkg))
  {
    assert w in base + added && c in base + added;
    if c in base { assert c in base + out; }
  }

  /** A winner examined either way stays, or loses to a more trusted candidate that is new among the examined. */
  lemma ExaminedStays(up: Client, d: Deployed, base: multiset<Candidate>, out: multiset<Candidate>,
                      added: multiset<Candidate>, w: Candidate, c: Candidate)
    requires Graded(up, d, base + out) && Graded(up, d, base + added) && w in base
    requires Wins(d, base + out, w) && Wins(d, base + added, c)
    ensures c == w || (c in added && LessTrusted(w.pkg, c.pkg))
  {
    WinnerEarned(up, d, base + out, w);
    WinnerEarned(up, d, base + added, c);
    if d.identity != {} {
      DominatorStays(base, out, added, w, c);
    } else {
      assert w in base + added;
    }
  }

  /** The one who wins with x in the listing is the old winner, or x, and then no less trusted. */
  ghost predicate Succeeds(x: HubPackage, shortlist: seq<HubPackage>, w: Candidate, c: Candidate) {
    c == w || (c.pkg == x && !LessTrusted(x, w.pkg) && (w.pkg in shortlist ==> LessTrusted(w.pkg, x)))
  }

  lemma NewcomerMoreTrusted(up: Client, d: Deployed, x: HubPackage, w: Candidate, c: Candidate)
    ensures c in multiset(GradedCandidates(up, d, [x])) && LessTrusted(w.pkg, c.pkg) ==>
      c.pkg == x && LessTrusted(w.pkg, x) && !LessTrusted(x, w.pkg)
  {
    CandidatesExamined(up, d, [x]);
    var candidates := GradedCandidates(up, d, [x]);
    if c in multiset(candidates) {
      assert c in candidates && Examined(up, d, [x], c);
    }
  }

  lemma CutoffCandidates(up: Client, d: Deployed, r: seq<HubPackage>)
    ensures multiset(GradedCandidates(up, d, Cutoff(r))) ==
      multiset(GradedCandidates(up, d, r[..Staying(r)])) + multiset(GradedCandidates(up, d, Displaced(r)))
  {
    if r != [] {
      CutoffWithAt(r, 0, r[0]);
    }
    GradedConcat(up, d, r[..Staying(r)], Displaced(r));
  }

  lemma ExaminedSucceeds(up: Client, d: Deployed, r: seq<HubPackage>, out: multiset<Candidate>,
                         x: HubPackage, after: seq<HubPackage>, w: Candidate, c: Candidate)
    requires var base := multiset(GradedCandidates(up, d, r[..Staying(r)]));
      w in base && Graded(up, d, base + out) && Wins(d, base + out, w)
    requires Ranked(r) && Joins(r, x, after) && Wins(d, multiset(GradedCandidates(up, d, Cutoff(after))), c)
    ensures Succeeds(x, Cutoff(after), w, c)
  {
    var l := InsertAt(ByRank, r, x);
    var base := multiset(GradedCandidates(up, d, r[..Staying(r)]));
    CandidatesGraded(up, d, Cutoff(after));
    CutoffWithAt(r, l, x);
    if l < MAX_CANDIDATE_FETCHES {
      SplitCandidates(up, d, r, l, x);
      ExaminedStays(up, d, base, out, multiset(GradedCandidates(up, d, [x])), w, c);
      NewcomerMoreTrusted(up, d, x, w, c);
    } else {
      CutoffCandidates(up, d, r);
      ExaminedStays(up, d, base, out, multiset(GradedCandidates(up, d, Displaced(r))), w, c);
      BaseRanksBefore(up, d, r);
      assert w in GradedCandidates(up, d, r[..Staying(r)]);
    }
  }

  lemma NotThePlaceHolder(up: Client, d: Deployed, r: seq<HubPackage>, k: nat, y: HubPackage, w: Candidate)
    requires k < MAX_CANDIDATE_FETCHES && k <= |r| && w.pkg != y
    requires w in multiset(GradedCandidates(up, d, Cutoff(WithAt(r, k, y))))
    ensures var base := multiset(GradedCandidates(up, d, r[..Staying(r)]));
      && w in base
      && multiset(GradedCandidates(up, d, Cutoff(WithAt(r, k, y)))) == base + multiset(GradedCandidates(up, d, [y]))
  {
    SplitCandidates(up, d, r, k, y);
    CandidatesExamined(up, d, [y]);
    assert w !in GradedCandidates(up, d, [y]);
  }

  /** Two packages that could join the same ranking: the winner with the one against the winner with the other. */
  lemma Exchanged(up: Client, d: Deployed, r: seq<HubPackage>, y: HubPackage, before: seq<HubPackage>,
                  x: HubPackage, after: seq<HubPackage>, w: Candidate, c: Candidate)
    requires Ranked(r) && Joins(r, y, before) && Joins(r, x, after) && w.pkg != y
    requires Wins(d, multiset(GradedCandidates(up, d, Cutoff(before))), w)
    requires Wins(d, multiset(GradedCandidates(up, d, Cutoff(after))), c)
    requires w in multiset(GradedCandidates(up, d, Cutoff(before)))
    ensures Succeeds(x, Cutoff(after), w, c)
  {
    var k := InsertAt(ByRank, r, y);
    CutoffWithAt(r, k, y);
    if k >= MAX_CANDIDATE_FETCHES {
      Newcomer(up, d, r, InsertAt(ByRank, r, x), x, w, c);
    } else {
      NotThePlaceHolder(up, d, r, k, y, w);
      CandidatesGraded(up, d, Cutoff(before));
      ExaminedSucceeds(up, d, r, multiset(GradedCandidates(up, d, [y])), x, after, w, c);
    }
  }

  lemma RankedWithout(r: seq<HubPackage>, z: HubPackage, more: seq<HubPackage>)
    requires Joins(r, z, more) && Ranked(more)
    ensures Ranked(r)
  {
    var k := InsertAt(ByRank, r, z);
    forall i, j | 0 <= i < j < |r| ensures RanksBefore(r[i], r[j]) {
      assert more[if i < k then i else i + 1] == r[i] && more[if j < k then j else j + 1] == r[j];
    }
  }

  /**
   One more package anywhere in the listing: the winner stays, nobody wins, or the new package wins,
   at least as trusted, and strictly more unless the winner was pushed off a full shortlist. The only
   exception is a package that takes the place of the winner itself, further down in its repository.
   */
  lemma AddingAPackage(up: Client, d: Deployed, a: seq<HubPackage>, x: HubPackage, b: seq<HubPackage>)
    requires Chosen(up, d, a + b).Some? && Chosen(up, d, a + [x] + b).Some?
    ensures var w, c := Chosen(up, d, a + b).value, Chosen(up, d, a + [x] + b).value;
      || c == w
      || (c == x && !LessTrusted(x, w) && (w in Shortlisted(up, d.name, a + [x] + b) ==> LessTrusted(w, x)))
      || (Eligible(up, d.name, x) && w in b && SameRepository(up, x, w))
  {
    var r, more := RankedOf(up, d.name, a + b), RankedOf(up, d.name, a + [x] + b);
    var before, after := multiset(GradedCandidates(up, d, Cutoff(r))), multiset(GradedCandidates(up, d, Cutoff(more)));
    var w, c := TheWinner(d, before), TheWinner(d, after);
    if Eligible(up, d.name, x) && !(exists q :: q in Representatives(up, d.name, a) && SameRepository(up, x, q)) {
      var core := Core(up, d.name, a, x, b);
      CoreListed(up, d.name, a, x, b);
      RankedWithout(core, x, more);
      if r == core {
        Newcomer(up, d, r, InsertAt(ByRank, r, x), x, w, c);
      } else {
        var y :| y in b && SameRepository(up, x, y) && Joins(core, y, r);
        if w.pkg != y { Exchanged(up, d, core, y, r, x, more, w, c); }
      }
    } else {
      OldListed(up, d.name, a, x, b);
      WinnerUnique(d, before, w, c);
    }
  }

  lemma StillThere(r: seq<HubPackage>, x: HubPackage, more: seq<HubPackage>, p: HubPackage)
    requires Joins(r, x, more) && p in r && |r| < MAX_CANDIDATE_FETCHES
    ensures p in Cutoff(more)
  {
    var k := InsertAt(ByRank, r, x);
    assert r == r[..k] + r[k..];
  }

  lemma JoinedFrom(core: seq<HubPackage>, y: HubPackage, r: seq<HubPackage>, p: HubPackage)
    requires Joins(core, y, r) && p in r && p != y
    ensures p in core && |core| < |r|
  {
    var k := InsertAt(ByRank, core, y);
    assert core == core[..k] + core[k..];
  }

  lemma StillListed(core: seq<HubPackage>, y: HubPackage, r: seq<HubPackage>, x: HubPackage, more: seq<HubPackage>,
                    p: HubPackage)
    requires Joins(core, y, r) && Joins(core, x, more) && p in r && p != y && |r| < MAX_CANDIDATE_FETCHES
    ensures p in Cutoff(more)
  {
    JoinedFrom(core, y, r, p);
    StillThere(core, x, more, p);
  }

  /** While there are fewer than five representatives the winner stays shortlisted, unless x takes its place. */
  lemma RoomKeepsWinner(up: Client, d: Deployed, a: seq<HubPackage>, x: HubPackage, b: seq<HubPackage>)
    requires Chosen(up, d, a + b).Some? && |Representatives(up, d.name, a + b)| < MAX_CANDIDATE_FETCHES
    ensures var w := Chosen(up, d, a + b).value;
      w in Shortlisted(up, d.name, a + [x] + b) || (Eligible(up, d.name, x) && w in b && SameRepository(up, x, w))
  {
    var r, more := RankedOf(up, d.name, a + b), RankedOf(up, d.name, a + [x] + b);
    var w := TheWinner(d, multiset(GradedCandidates(up, d, Cutoff(r))));
    CandidatesExamined(up, d, Cutoff(r));
    assert w in GradedCandidates(up, d, Cutoff(r)) && w.pkg in Cutoff(r);
    if Eligible(up, d.name, x) && !(exists q :: q in Representatives(up, d.name, a) && SameRepository(up, x, q)) {
      var core := Core(up, d.name, a, x, b);
      CoreListed(up, d.name, a, x, b);
      if r != core {
        var y :| y in b && SameRepository(up, x, y) && Joins(core, y, r);
        if w.pkg != y { StillListed(core, y, r, x, more, w.pkg); }
      } else {
        StillThere(r, x, more, w.pkg);
      }
    } else {
      OldListed(up, d.name, a, x, b);
    }
  }

  lemma FifthGives(r: seq<HubPackage>, k: nat, x: HubPackage)
    requires TotalPreorder(ByRank) && forall p, q :: RanksBefore(p, q) <==> !ByRank(q, p)
    requires Ranked(r) && x !in r && |r| >= MAX_CANDIDATE_FETCHES && k <= |r| && (k > 0 ==> ByRank(r[k - 1], x))
    requires forall i :: k <= i < |r| ==> RanksBefore(x, r[i])
    ensures var fifth, more := Cutoff(r)[MAX_CANDIDATE_FETCHES - 1], Cutoff(WithAt(r, k, x));
      && (x in more <==> RanksBefore(x, fifth)) && (fifth in more <==> !RanksBefore(x, fifth))
  {
    var e := MAX_CANDIDATE_FETCHES - 1;
    CutoffWithAt(r, k, x);
    assert Cutoff(r)[e] == r[e];
    if k <= e {
      forall i | 0 <= i < e ensures r[i] != r[e] { assert RanksBefore(r[i], r[e]); }
    } else {
      assert e == k - 1 || RanksBefore(r[e], r[k - 1]);
      assert ByRank(r[e], x);
    }
  }

  /** A full shortlist makes room for a package of a new repository exactly if that ranks before its fifth. */
  lemma PushesOut(up: Client, name: string, a: seq<HubPackage>, x: HubPackage, b: seq<HubPackage>)
    requires Eligible(up, name, x) && forall q :: q in a + b && Eligible(up, name, q) ==> !SameRepository(up, x, q)
    requires |Representatives(up, name, a + b)| >= MAX_CANDIDATE_FETCHES
    ensures |Shortlisted(up, name, a + b)| == MAX_CANDIDATE_FETCHES
    ensures var fifth := Shortlisted(up, name, a + b)[MAX_CANDIDATE_FETCHES - 1];
      var more := Shortlisted(up, name, a + [x] + b);
      && (x in more <==> RanksBefore(x, fifth)) && (fifth in more <==> !RanksBefore(x, fifth))
  {
    var r := RankedOf(up, name, a + b);
    LaterFrom(up, name, [], a);
    RepresentativesConcat(up, name, [], a);
    assert [] + a == a && Representatives(up, name, []) == [];
    NewListed(up, name, a, x, b);
    ByRankPreorder();
    FifthGives(r, InsertAt(ByRank, r, x), x);
  }

  // ----- Listings in which strictness, or the winner, is lost -----

  /** Eligible packages of distinct repositories all represent themselves. */
  lemma {:induction false} AllRepresent(up: Client, name: string, s: seq<HubPackage>)
    requires DistinctRepositories(up, s) && forall p :: p in s ==> Eligible(up, name, p)
    ensures Representatives(up, name, s) == s
  {
    if s != [] {
      var front := s[..|s| - 1];
      AllRepresent(up, name, front);
      assert s == front + [s[|s| - 1]];
    }
  }

  /** What is ranked already is left so. */
  lemma RankedStays(s: seq<HubPackage>)
    requires Ranked(s)
    ensures TotalPreorder(ByRank) && Arrange(ByRank, s) == s
  {
    ByRankPreorder();
    forall i, j | 0 <= i < j < |s| ensures ByRank(s[i], s[j]) { assert RanksBefore(s[i], s[j]); }
    ArrangeUnique(ByRank, s, s);
  }

  /** The package's index can be read and claims the release's identity. */
  ghost predicate Claims(up: Client, d: Deployed, p: HubPackage) {
    GradedCandidates(up, d, [p]) == [Candidate(p, StrongMatch)]
  }

  lemma SoleClaimWins(up: Client, d: Deployed, kept: seq<HubPackage>, p: HubPackage)
    requires GradedCandidates(up, d, kept) == [Candidate(p, StrongMatch)]
    ensures Winner(d, multiset(GradedCandidates(up, d, kept))) == Some(p)
  {
    var c := Candidate(p, StrongMatch);
    assert Filter(IsStrong, [c]) == [c] by { assert [c][1..] == []; }
    SoleStrongWins(d, [c], c);
    WinnerIs(d, [c], c);
  }

  lemma TwoClaims(up: Client, d: Deployed, kept: seq<HubPackage>, p: HubPackage, q: HubPackage)
    requires p != q && GradedCandidates(up, d, kept) == [Candidate(p, StrongMatch), Candidate(q, StrongMatch)]
    ensures Winner(d, multiset(GradedCandidates(up, d, kept))) ==
      if LessTrusted(q, p) then Some(p) else if LessTrusted(p, q) then Some(q) else None
  {
    var a, b := Candidate(p, StrongMatch), Candidate(q, StrongMatch);
    var m := multiset([a, b]);
    assert a in m && b in m && IsStrong(a);
    if LessTrusted(q, p) {
      assert Wins(d, m, a);
      WinnerIs(d, [a, b], a);
    } else if LessTrusted(p, q) {
      assert Wins(d, m, b);
      WinnerIs(d, [a, b], b);
    } else {
      forall c ensures !Wins(d, m, c) {}
    }
  }

  /** Four unreadable packages of distinct repositories rank before z, and so does y, which is just as trusted as z. */
  ghost predicate FullWithRival(up: Client, d: Deployed, four: seq<HubPackage>, z: HubPackage, y: HubPackage) {
    && |four| == MAX_CANDIDATE_FETCHES - 1 && GradedCandidates(up, d, four) == []
    && Claims(up, d, z) && Claims(up, d, y) && TrustKey(y) == TrustKey(z) && y != z
    && Ranked(four + [z]) && Ranked(four + [y]) && RanksBefore(y, z)
    && DistinctRepositories(up, four + [z] + [y])
    && forall p :: p in four + [z] + [y] ==> Eligible(up, d.name, p)
  }

  lemma RivalPlace(four: seq<HubPackage>, z: HubPackage, y: HubPackage)
    requires |four| == MAX_CANDIDATE_FETCHES - 1 && Ranked(four + [y]) && RanksBefore(y, z)
    ensures InsertAt(ByRank, four + [z], y) == |four| && Cutoff(WithAt(four + [z], |four|, y)) == four + [y]
  {
    ByRankPreorder();
    var packages := four + [z];
    assert packages[..4] == four && packages[4] == z;
    assert (four + [y])[3] == four[3] && (four + [y])[4] == y;
    assert WithAt(packages, 4, y)[..5] == four + [y];
  }

  lemma RivalRanked(up: Client, d: Deployed, four: seq<HubPackage>, z: HubPackage, y: HubPackage)
    requires FullWithRival(up, d, four, z, y)
    requires Representatives(up, d.name, four + [z]) == four + [z]
    requires Representatives(up, d.name, four + [z] + [y]) == four + [z] + [y]
    ensures Shortlisted(up, d.name, four + [z] + [y]) == four + [y]
  {
    var packages := four + [z];
    RankedStays(packages);
    assert (packages + [y])[..5] == packages;
    forall p | p in packages ensures !SameRepository(up, y, p) {
      var i :| 0 <= i < 5 && packages[i] == p;
      assert (packages + [y])[i] == p && (packages + [y])[5] == y;
    }
    assert packages + [] == packages && packages + [y] + [] == packages + [y];
    NewListed(up, d.name, packages, y, []);
    RivalPlace(four, z, y);
  }

  lemma RivalRepresents(up: Client, d: Deployed, four: seq<HubPackage>, z: HubPackage, y: HubPackage)
    requires FullWithRival(up, d, four, z, y)
    ensures Representatives(up, d.name, four + [z]) == four + [z]
    ensures Representatives(up, d.name, four + [z] + [y]) == four + [z] + [y]
  {
    var packages := four + [z];
    assert DistinctRepositories(up, packages) by {
      assert forall i :: 0 <= i < |packages| ==> packages[i] == (packages + [y])[i];
    }
    AllRepresent(up, d.name, packages);
    AllRepresent(up, d.name, packages + [y]);
  }

  lemma RivalCandidates(up: Client, d: Deployed, four: seq<HubPackage>, z: HubPackage, y: HubPackage)
    requires GradedCandidates(up, d, four) == [] && Claims(up, d, z) && Claims(up, d, y)
    ensures GradedCandidates(up, d, four + [z]) == [Candidate(z, StrongMatch)]
    ensures GradedCandidates(up, d, four + [y]) == [Candidate(y, StrongMatch)]
    ensures GradedCandidates(up, d, four + [z] + [y]) == [Candidate(z, StrongMatch), Candidate(y, StrongMatch)]
  {
    GradedConcat(up, d, four, [z]);
    GradedConcat(up, d, four, [y]);
    GradedConcat(up, d, four + [z], [y]);
  }

  /**
   A package no more trusted than the winner takes its place: on a full shortlist its smaller URL
   pushes the winner out, where nobody would win if both were examined.
   */
  lemma RivalTakesOver(up: Client, d: Deployed, four: seq<HubPackage>, z: HubPackage, y: HubPackage)
    requires FullWithRival(up, d, four, z, y)
    ensures Chosen(up, d, four + [z]) == Some(z) && Chosen(up, d, four + [z] + [y]) == Some(y)
    ensures Winner(d, multiset(GradedCandidates(up, d, Representatives(up, d.name, four + [z] + [y])))) == None
  {
    RivalRepresents(up, d, four, z, y);
    RivalCandidates(up, d, four, z, y);
    RankedStays(four + [z]);
    assert Cutoff(four + [z]) == four + [z];
    SoleClaimWins(up, d, four + [z], z);
    RivalRanked(up, d, four, z, y);
    SoleClaimWins(up, d, four + [y], y);
    TwoClaims(up, d, four + [z] + [y], z, y);
  }

  /** x is listed before w, which has the same repository and more trust than c, which has more than x. */
  ghost predicate TakesPlace(up: Client, d: Deployed, x: HubPackage, w: HubPackage, c: HubPackage) {
    && Claims(up, d, x) && Claims(up, d, w) && Claims(up, d, c)
    && SameRepository(up, x, w) && !SameRepository(up, c, w) && LessTrusted(c, w) && LessTrusted(x, c)
    && Eligible(up, d.name, x) && Eligible(up, d.name, w) && Eligible(up, d.name, c)
  }

  lemma SwappedPair(p: HubPackage, q: HubPackage)
    requires RanksBefore(p, q)
    ensures TotalPreorder(ByRank) && Arrange(ByRank, [q, p]) == [p, q]
  {
    ByRankPreorder();
    SwapKeepsClasses(ByRank, [q, p], 1);
    assert [q, p][0 := p][1 := q] == [p, q];
    ArrangeUnique(ByRank, [q, p], [p, q]);
  }

  lemma PairShortlisted(up: Client, name: string, packages: seq<HubPackage>, p: HubPackage, q: HubPackage)
    requires var reps := Representatives(up, name, packages); reps == [p, q] || reps == [q, p]
    requires RanksBefore(p, q)
    ensures Shortlisted(up, name, packages) == [p, q]
  {
    RankedStays([p, q]);
    SwappedPair(p, q);
  }

  /** Of two representatives that claim the release the more trusted is chosen. */
  lemma MoreTrustedChosen(up: Client, d: Deployed, packages: seq<HubPackage>, p: HubPackage, q: HubPackage)
    requires var reps := Representatives(up, d.name, packages); reps == [p, q] || reps == [q, p]
    requires Claims(up, d, p) && Claims(up, d, q) && LessTrusted(q, p)
    ensures Chosen(up, d, packages) == Some(p)
  {
    PairShortlisted(up, d.name, packages, p, q);
    GradedConcat(up, d, [p], [q]);
    assert [p] + [q] == [p, q];
    TwoClaims(up, d, [p, q], p, q);
  }

  lemma BehindItsPlaceTaker(up: Client, name: string, x: HubPackage, w: HubPackage)
    requires Representatives(up, name, [x]) == [x] && Eligible(up, name, w) && SameRepository(up, x, w)
    ensures Representatives(up, name, [x] + [w]) == [x]
  {
    RepresentativesStep(up, name, [x], w);
    assert x in [x] && SameRepository(up, w, x);
  }

  lemma PlaceTakerRepresents(up: Client, d: Deployed, x: HubPackage, w: HubPackage, c: HubPackage)
    requires TakesPlace(up, d, x, w, c)
    ensures Representatives(up, d.name, [w, c]) == [w, c] && Representatives(up, d.name, [x] + [w, c]) == [x, c]
  {
    AllRepresent(up, d.name, [w, c]);
    AllRepresent(up, d.name, [x]);
    BehindItsPlaceTaker(up, d.name, x, w);
    assert [x] + [w, c] == [x] + [w] + [c];
    RepresentativesStep(up, d.name, [x] + [w], c);
    assert [x] + [c] == [x, c];
  }

  /** Taking the place of a later package of its repository, x hands the release to a third. */
  lemma PlaceTakerHandsOver(up: Client, d: Deployed, x: HubPackage, w: HubPackage, c: HubPackage)
    requires TakesPlace(up, d, x, w, c)
    ensures Chosen(up, d, [w, c]) == Some(w) && Chosen(up, d, [x] + [w, c]) == Some(c) && c != w && c != x
  {
    PlaceTakerRepresents(up, d, x, w, c);
    MoreTrustedChosen(up, d, [w, c], w, c);
    MoreTrustedChosen(up, d, [x] + [w, c], c, x);
  }

  // ----- Such listings exist -----

  /** A network where every URL is its own canonical form, and indexes at URLs of one character claim the release. */
  ghost predicate Reads(up: Client, d: Deployed) {
    && (forall s :: s != "" ==> CanonicalUrl(up, s) == Some(s) && up.egressAllowed(s))
    && (forall s, t :: up.equalFold(s, t))
    && forall url, name :: if |url| == 1
         then up.chartVersions(url, name).Some? && Grade(up, d, up.chartVersions(url, name).value) == StrongMatch
         else up.chartVersions(url, name).None?
  }

  /** URLs are hosts, everything is allowed and every name matches; one-character URLs have an index of one entry. */
  ghost predicate Plain(up: Client, entry: ChartVersion) {
    && (forall s :: up.parseUrl(s) == Some(Url("http", s, "", "")) && up.toLower(s) == s && up.egressAllowed(s))
    && (forall s, t :: up.equalFold(s, t))
    && forall url, name :: up.chartVersions(url, name) == if |url| == 1 then Some([entry]) else None
  }

  lemma SomeNetworkIsPlain(entry: ChartVersion)
    ensures exists up :: Plain(up, entry)
  {
    var up := Client(
      (s: string) => Some(Url("http", s, "", "")),
      (s: string) => s,
      (s: string, t: string) => true,
      (s: string) => true,
      (owner: string, repo: string) => None,
      (url: string, name: string) => if |url| == 1 then Some([entry]) else None,
      (name: string) => None);
    assert Plain(up, entry);
  }

  lemma PlainCanonical(up: Client, entry: ChartVersion, s: string)
    requires Plain(up, entry) && s != ""
    ensures CanonicalUrl(up, s) == Some(s)
  {
    assert up.parseUrl(s) == Some(Url("http", s, "", ""));
    assert s + TrimSlash("") + "" == s;
  }

  lemma PlainGrades(up: Client, entry: ChartVersion, d: Deployed)
    requires entry == ChartVersion("1", "", 0, false, "h", []) && d == Deployed("n", "1", "", {"h"}) && Plain(up, entry)
    ensures Grade(up, d, [entry]) == StrongMatch
  {
    PlainCanonical(up, entry, "h");
    assert "h" in [entry.home] + entry.sources;
    assert "h" in d.identity * RemoteOf(up, entry);
    assert FirstEntry([entry], "1") == 0;
  }

  lemma SomeNetworkReads()
    ensures exists up, d :: Reads(up, d)
  {
    var entry, d := ChartVersion("1", "", 0, false, "h", []), Deployed("n", "1", "", {"h"});
    SomeNetworkIsPlain(entry);
    var up :| Plain(up, entry);
    forall s | s != "" ensures CanonicalUrl(up, s) == Some(s) { PlainCanonical(up, entry, s); }
    PlainGrades(up, entry, d);
    assert Reads(up, d);
  }

  function Listed(url: string, users: int): HubPackage {
    HubPackage("n", false, users, Repository(url, HELM_KIND, false, false))
  }

  lemma ListedFacts(up: Client, d: Deployed, url: string, users: int)
    requires Reads(up, d) && url != ""
    ensures Eligible(up, d.name, Listed(url, users))
    ensures
      if |url| == 1 then Claims(up, d, Listed(url, users))
      else GradedCandidates(up, d, [Listed(url, users)]) == []
  {
    assert [Listed(url, users)][..0] == [];
  }

  /** Packages with ever longer URLs and ever fewer users. */
  function Longer(n: nat): seq<HubPackage> {
    seq(n, i requires 0 <= i < n => Listed(seq(i + 2, _ => 'u'), n - i + 1))
  }

  lemma LongerFacts(up: Client, d: Deployed)
    requires Reads(up, d)
    ensures forall p :: p in Longer(4) ==> Eligible(up, d.name, p) && GradedCandidates(up, d, [p]) == []
  {
    forall p | p in Longer(4) ensures Eligible(up, d.name, p) && GradedCandidates(up, d, [p]) == [] {
      var i :| 0 <= i < 4 && Longer(4)[i] == p;
      ListedFacts(up, d, seq(i + 2, _ => 'u'), 5 - i);
    }
  }

  lemma AllThree(up: Client, name: string, four: seq<HubPackage>, z: HubPackage, y: HubPackage)
    requires (forall p :: p in four ==> Eligible(up, name, p)) && Eligible(up, name, z) && Eligible(up, name, y)
    ensures forall p :: p in four + [z] + [y] ==> Eligible(up, name, p)
  {
  }

  lemma MoreUsersFirst(url: string)
    ensures Ranked(Longer(4) + [Listed(url, 1)])
  {
    var s := Longer(4) + [Listed(url, 1)];
    assert forall i :: 0 <= i < |s| ==> TrustKey(s[i]) == (0, 0, if i < 4 then 5 - i else 1);
  }

  lemma RivalOrder()
    ensures RanksBefore(Listed("y", 1), Listed("z", 1))
    ensures Ranked(Longer(4) + [Listed("z", 1)]) && Ranked(Longer(4) + [Listed("y", 1)])
  {
    assert Semver.CompareString("y", "z") < 0;
    MoreUsersFirst("z");
    MoreUsersFirst("y");
  }

  lemma RivalDistinct(up: Client, d: Deployed)
    requires Reads(up, d)
    ensures DistinctRepositories(up, Longer(4) + [Listed("z", 1)] + [Listed("y", 1)])
  {
    var s := Longer(4) + [Listed("z", 1)] + [Listed("y", 1)];
    forall i, j | 0 <= i < j < |s| ensures !SameRepository(up, s[i], s[j]) {
      assert |s[i].repository.url| != |s[j].repository.url| || (i == 4 && j == 5);
      assert s[i].repository.url != s[j].repository.url;
    }
  }

  lemma {:induction false} NoneGraded(up: Client, d: Deployed, s: seq<HubPackage>)
    requires forall p :: p in s ==> GradedCandidates(up, d, [p]) == []
    ensures GradedCandidates(up, d, s) == []
  {
    if s != [] {
      var front, last := s[..|s| - 1], s[|s| - 1];
      assert s == front + [last];
      NoneGraded(up, d, front);
      GradedConcat(up, d, front, [last]);
    }
  }

  lemma RivalExists()
    ensures exists up, d, four, z, y :: FullWithRival(up, d, four, z, y)
  {
    SomeNetworkReads();
    var up, d :| Reads(up, d);
    var four, z, y := Longer(4), Listed("z", 1), Listed("y", 1);
    LongerFacts(up, d);
    NoneGraded(up, d, four);
    ListedFacts(up, d, "z", 1);
    ListedFacts(up, d, "y", 1);
    AllThree(up, d.name, four, z, y);
    RivalOrder();
    RivalDistinct(up, d);
    assert FullWithRival(up, d, four, z, y);
  }

  lemma PlaceTakerExists()
    ensures exists up, d, x, w, c :: TakesPlace(up, d, x, w, c)
  {
    SomeNetworkReads();
    var up, d :| Reads(up, d);
    var x, w, c := Listed("z", 1), Listed("z", 3), Listed("y", 2);
    ListedFacts(up, d, "z", 1);
    ListedFacts(up, d, "z", 3);
    ListedFacts(up, d, "y", 2);
    assert TakesPlace(up, d, x, w, c);
  }

  /** So the winner's package can lose to one that is no more trusted. */
  lemma StrictnessNeedsRoom()
    ensures exists up, d, packages, x, w ::
      && Chosen(up, d, packages) == Some(w) && Chosen(up, d, packages + [x]) == Some(x)
      && x != w && TrustKey(x) == TrustKey(w)
      && Winner(d, multiset(GradedCandidates(up, d, Representatives(up, d.name, packages + [x])))) == None
  {
    RivalExists();
    var up, d, four, z, y :| FullWithRival(up, d, four, z, y);
    RivalTakesOver(up, d, four, z, y);
  }

  /** And a package that takes a later one's place can make a third win. */
  lemma OrderOfRepositoryMatters()
    ensures exists up, d, x, b, w, c ::
      Chosen(up, d, b) == Some(w) && Chosen(up, d, [x] + b) == Some(c) && c != w && c != x
  {
    PlaceTakerExists();
    var up, d, x, w, c :| TakesPlace(up, d, x, w, c);
    PlaceTakerHandsOver(up, d, x, w, c);
  }
}
