/** internal/ref: resource refs and their canonical string form. */
module Ref {
  import opened Wrappers
  import opened Api
  import opened Semver

  function LocalPart(r: ResourceRef): string {
    if r.namespace == "" then r.name else r.namespace + ("/" + r.name)
  }

  function String(r: ResourceRef): string {
    r.detector + (":" + LocalPart(r))
  }

  /** strings.Cut: around the first separator, if there is one. */
  function Cut(s: string, sep: char): Option<(string, string)> {
    var i := IndexOf(s, sep);
    if i == |s| then None else Some((s[..i], s[i + 1..]))
  }

  function ParseLocal(detector: string, rest: string): Option<ResourceRef> {
    match Cut(rest, '/')
    case Some((namespace, name)) =>
      if namespace == "" || name == "" then None else Some(ResourceRef(detector, namespace, name))
    case None => Some(ResourceRef(detector, "", rest))
  }

  function Parse(s: string): Option<ResourceRef> {
    match Cut(s, ':')
    case None => None
    case Some((detector, rest)) => if detector == "" || rest == "" then None else ParseLocal(detector, rest)
  }

  /** What a ref needs for its string form to determine it. */
  predicate WellFormed(r: ResourceRef) {
    && r.detector != "" && ':' !in r.detector && r.name != ""
    && (if r.namespace == "" then '/' !in r.name else '/' !in r.namespace)
  }

  predicate LowerOrDigit(c: char) { 'a' <= c <= 'z' || '0' <= c <= '9' }

  /** The patterns the API enforces on refs (proto/kdelta/v1/resource.proto). */
  predicate ApiValid(r: ResourceRef) {
    && 1 <= |r.detector| <= 63 && 'a' <= r.detector[0] <= 'z'
    && (forall c :: c in r.detector ==> LowerOrDigit(c) || c == '-')
    && |r.namespace| <= 63 && (forall c :: c in r.namespace ==> LowerOrDigit(c) || c == '-')
    && (r.namespace != "" ==> LowerOrDigit(r.namespace[0]) && LowerOrDigit(r.namespace[|r.namespace| - 1]))
    && 1 <= |r.name| <= 253 && (forall c :: c in r.name ==> LowerOrDigit(c) || c == '-' || c == '.')
    && LowerOrDigit(r.name[0]) && LowerOrDigit(r.name[|r.name| - 1])
  }

  predicate RefsEqual(a: ResourceRef, b: ResourceRef) {
    a.detector == b.detector && a.namespace == b.namespace && a.name == b.name
  }

  lemma CutConcat(s: string, sep: char, t: string)
    requires sep !in s
    ensures Cut(s + ([sep] + t), sep) == Some((s, t))
  {
    IndexOfConcat(s, sep, t);
    var w := s + ([sep] + t);
    assert w[..|s|] == s && w[|s| + 1..] == t;
  }

  lemma CutJoins(s: string, sep: char)
    ensures Cut(s, sep).Some? ==>
      s == Cut(s, sep).value.0 + ([sep] + Cut(s, sep).value.1) && sep !in Cut(s, sep).value.0
    ensures Cut(s, sep).None? <==> sep !in s
  {
  }

  lemma LocalPartInvertsParse(detector: string, rest: string)
    requires detector != "" && ':' !in detector && rest != "" && ParseLocal(detector, rest).Some?
    ensures LocalPart(ParseLocal(detector, rest).value) == rest
    ensures ParseLocal(detector, rest).value.detector == detector && WellFormed(ParseLocal(detector, rest).value)
  {
    CutJoins(rest, '/');
  }

  /** Every accepted string is the string form of the ref read from it, which is well formed. */
  lemma StringInvertsParse(s: string)
    requires Parse(s).Some?
    ensures String(Parse(s).value) == s && WellFormed(Parse(s).value)
  {
    var (detector, rest) := Cut(s, ':').value;
    CutJoins(s, ':');
    LocalPartInvertsParse(detector, rest);
  }

  /** The string form reads back as the ref exactly when the ref is well formed. */
  lemma ParseInvertsString(r: ResourceRef)
    ensures Parse(String(r)) == Some(r) <==> WellFormed(r)
  {
    if WellFormed(r) {
      CutConcat(r.detector, ':', LocalPart(r));
      if r.namespace == "" {
        CutJoins(r.name, '/');
      } else {
        CutConcat(r.namespace, '/', r.name);
      }
      assert ParseLocal(r.detector, LocalPart(r)) == Some(r);
    } else if Parse(String(r)) == Some(r) {
      StringInvertsParse(String(r));
      assert false;
    }
  }

  /** A string is read as a ref exactly if it spells it: detector, a colon, and the name behind its namespace. */
  lemma ParseMeans(s: string, r: ResourceRef)
    ensures Parse(s) == Some(r) <==>
      && r.detector != "" && ':' !in r.detector && r.name != ""
      && (if r.namespace == "" then '/' !in r.name && s == r.detector + (":" + r.name)
          else '/' !in r.namespace && s == r.detector + (":" + (r.namespace + ("/" + r.name))))
  {
    if Parse(s) == Some(r) { StringInvertsParse(s); }
    ParseInvertsString(r);
  }

  /** On well-formed refs, comparing fields and comparing string forms are the same test. */
  lemma EqualIffSameString(a: ResourceRef, b: ResourceRef)
    requires WellFormed(a) && WellFormed(b)
    ensures RefsEqual(a, b) <==> String(a) == String(b)
  {
    ParseInvertsString(a);
    ParseInvertsString(b);
  }

  /** Without well-formedness distinct refs can share a string form. */
  lemma AmbiguousString()
    ensures exists a, b :: !RefsEqual(a, b) && String(a) == String(b)
  {
    var a, b := ResourceRef("d", "n", "x"), ResourceRef("d", "", "n/x");
    assert String(a) == "d:n/x" == String(b);
  }

  lemma ApiValidWellFormed(r: ResourceRef)
    requires ApiValid(r)
    ensures WellFormed(r)
  {
  }
}
