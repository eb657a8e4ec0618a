/** internal/vers: version-string ordering per scheme. */
module Vers {
  import opened Wrappers
  import opened Orders
  import opened Api
  import Semver

  /** Unicode White_Space, which strings.TrimSpace removes. */
  predicate IsSpace(c: char) {
    c in "\t\n\r \U{000B}\U{000C}\U{0085}\U{00A0}\U{1680}\U{2028}\U{2029}\U{202F}\U{205F}\U{3000}"
    || '\U{2000}' <= c <= '\U{200A}'
  }

  function TrimLeft(s: string): string {
    if s != [] && IsSpace(s[0]) then TrimLeft(s[1..]) else s
  }

  function TrimRight(s: string): string {
    if s != [] && IsSpace(s[|s| - 1]) then TrimRight(s[..|s| - 1]) else s
  }

  function TrimSpace(s: string): string {
    TrimRight(TrimLeft(s))
  }

  /** The comparable form, and whether it parses under the scheme. */
  function Canonical(value: string, scheme: Scheme): (string, bool) {
    var v := TrimSpace(value);
    match scheme
    case SchemeSemver | SchemeLooseSemver | SchemeUnspecified =>
      var w := if v != [] && v[0] == 'v' then v else "v" + v;
      (w, Semver.Parse(w).Some?)
    case SchemeTag | SchemeGit | SchemeOther => (v, false)
  }

  function CompareOK(a: string, b: string, scheme: Scheme): Option<int> {
    var (ca, okA) := Canonical(a, scheme);
    var (cb, okB) := Canonical(b, scheme);
    if !okA || !okB then None else Some(Semver.Compare(Semver.Parse(ca).value, Semver.Parse(cb).value))
  }

  function Compare(a: string, b: string, scheme: Scheme): int {
    match CompareOK(a, b, scheme)
    case Some(c) => c
    case None => 0
  }

  predicate Sortable(value: string, scheme: Scheme) {
    Canonical(value, scheme).1
  }

  /** The schemes under which versions have an order at all; they share one order. */
  predicate SemverLike(scheme: Scheme) {
    scheme == SchemeSemver || scheme == SchemeLooseSemver || scheme == SchemeUnspecified
  }

  lemma SchemesAgree(a: string, b: string, scheme: Scheme)
    ensures Sortable(a, scheme) <==> SemverLike(scheme) && Sortable(a, SchemeSemver)
    ensures SemverLike(scheme) ==> CompareOK(a, b, scheme) == CompareOK(a, b, SchemeSemver)
  {
  }

  /** CompareOK as a total preorder on all strings: unsortable ones sit together at the bottom. */
  ghost predicate Below(a: string, b: string, scheme: Scheme) {
    !Sortable(a, scheme) || (Sortable(b, scheme) && CompareOK(a, b, scheme).value <= 0)
  }

  predicate AtMost(a: string, b: string, scheme: Scheme) {
    CompareOK(a, b, scheme).Some? && CompareOK(a, b, scheme).value <= 0
  }

  /**
   A comparison is defined exactly when both sides are sortable; then both directions agree up to
   sign, and every string equals itself.
   */
  lemma CompareAntisymmetric(a: string, b: string, scheme: Scheme)
    ensures CompareOK(a, b, scheme).Some? <==> Sortable(a, scheme) && Sortable(b, scheme)
    ensures CompareOK(b, a, scheme).Some? <==> CompareOK(a, b, scheme).Some?
    ensures CompareOK(a, b, scheme).Some? ==>
      && CompareOK(b, a, scheme).value == -CompareOK(a, b, scheme).value
      && -1 <= CompareOK(a, b, scheme).value <= 1
      && (a == b ==> CompareOK(a, b, scheme) == Some(0))
  {
    if Sortable(a, scheme) && Sortable(b, scheme) {
      var va, vb := Semver.Parse(Canonical(a, scheme).0).value, Semver.Parse(Canonical(b, scheme).0).value;
      assert CompareOK(a, b, scheme) == Some(Semver.Compare(va, vb));
      assert CompareOK(b, a, scheme) == Some(Semver.Compare(vb, va));
      Semver.CompareFacts(va, vb, vb);
    }
  }

  lemma CompareTransitive(a: string, b: string, c: string, scheme: Scheme)
    requires AtMost(a, b, scheme) && AtMost(b, c, scheme)
    ensures AtMost(a, c, scheme)
  {
    var ca, cb, cc := Canonical(a, scheme), Canonical(b, scheme), Canonical(c, scheme);
    Semver.CompareFacts(Semver.Parse(ca.0).value, Semver.Parse(cb.0).value, Semver.Parse(cc.0).value);
  }

  lemma BelowTotal(a: string, b: string, scheme: Scheme)
    ensures Below(a, b, scheme) || Below(b, a, scheme)
    ensures Sortable(a, scheme) && Sortable(b, scheme) ==>
      (Compare(a, b, scheme) < 0 <==> !Below(b, a, scheme))
  {
    if Sortable(a, scheme) && Sortable(b, scheme) {
      CompareAntisymmetric(a, b, scheme);
    }
  }

  lemma BelowTransitive(a: string, b: string, c: string, scheme: Scheme)
    requires Below(a, b, scheme) && Below(b, c, scheme)
    ensures Below(a, c, scheme)
  {
    if Sortable(a, scheme) {
      CompareTransitive(a, b, c, scheme);
    }
  }

  /** A version at least as new as one above b is above b. */
  lemma AboveTransitive(a: string, b: string, c: string, scheme: Scheme)
    requires AtMost(a, b, scheme) && Sortable(c, scheme) && CompareOK(a, c, scheme).value > 0
    ensures CompareOK(b, c, scheme).Some? && CompareOK(b, c, scheme).value > 0
  {
    CompareAntisymmetric(b, c, scheme);
    if AtMost(b, c, scheme) { CompareTransitive(a, b, c, scheme); }
  }

  /** Sortable strings that differ only in build metadata are interchangeable in comparisons. */
  lemma CompareIgnoresBuild(a: string, a': string, b: string, scheme: Scheme)
    requires Sortable(a, scheme) && Sortable(a', scheme)
    requires Semver.BeforeBuild(Canonical(a, scheme).0) == Semver.BeforeBuild(Canonical(a', scheme).0)
    ensures CompareOK(a, b, scheme) == CompareOK(a', b, scheme)
    ensures CompareOK(a, a', scheme) == Some(0)
  {
    Semver.BuildIgnored(Canonical(a, scheme).0);
    Semver.BuildIgnored(Canonical(a', scheme).0);
    CompareAntisymmetric(a, a, scheme);
  }

  ghost function ByVersion(scheme: Scheme): (Version, Version) -> bool {
    (x: Version, y: Version) => Below(x.value, y.value, scheme)
  }

  lemma ByVersionPreorder(scheme: Scheme)
    ensures TotalPreorder(ByVersion(scheme))
  {
    forall x: Version, y: Version ensures ByVersion(scheme)(x, y) || ByVersion(scheme)(y, x) {
      BelowTotal(x.value, y.value, scheme);
    }
    forall x: Version, y: Version, z: Version | ByVersion(scheme)(x, y) && ByVersion(scheme)(y, z)
      ensures ByVersion(scheme)(x, z)
    {
      BelowTransitive(x.value, y.value, z.value, scheme);
    }
  }

  function SortableOnly(versions: seq<Version>, scheme: Scheme): seq<Version> {
    Filter((v: Version) => Sortable(v.value, scheme), versions)
  }

  /** Oldest to newest: the one stable ascending arrangement of exactly the sortable inputs. */
  method SortAscending(versions: seq<Version>, scheme: Scheme) returns (sorted: seq<Version>)
    ensures StableArrangement(ByVersion(scheme), SortableOnly(versions, scheme), sorted)
  {
    var sortable: seq<Version> := [];
    ghost var p := (v: Version) => Sortable(v.value, scheme);
    var i := 0;
    while i < |versions|
      invariant 0 <= i <= |versions|
      invariant sortable == Filter(p, versions[..i])
    {
      FilterStep(p, versions, i);
      if Sortable(versions[i].value, scheme) {
        sortable := sortable + [versions[i]];
      }
      i := i + 1;
    }
    assert versions[..i] == versions;
    FilterMembers(p, versions);
    ByVersionPreorder(scheme);
    forall x, y | x in sortable && y in sortable
      ensures Compare(x.value, y.value, scheme) < 0 <==> !ByVersion(scheme)(y, x)
    {
      BelowTotal(x.value, y.value, scheme);
    }
    sorted := SortSlice(sortable, (x: Version, y: Version) => Compare(x.value, y.value, scheme) < 0, ByVersion(scheme));
  }
}
