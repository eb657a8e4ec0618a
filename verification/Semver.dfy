/**
 Version precedence: sections 9 to 11 of Semantic Versioning 2.0.0, together with the
 leading "v" and the short forms "v1" and "v1.2" that the comparison library accepts.
 */
module Semver {
  import opened Wrappers
  import opened Decimal

  /** Identifiers of a pre-release: numeric ones rank below alphanumeric ones. */
  datatype Ident = Num(n: nat) | Alpha(s: string)

  /** What takes part in precedence; build metadata does not. */
  datatype Version = Version(major: nat, minor: nat, patch: nat, pre: seq<Ident>)

  // ----- Comparison -----

  /** Three-way comparisons whose sign is a total order. */
  ghost predicate Linear<T(!new)>(c: (T, T) -> int) {
    && (forall x, y :: -1 <= c(x, y) <= 1 && c(y, x) == -c(x, y))
    && (forall x, y :: c(x, y) == 0 <==> x == y)
    && (forall x, y, z :: c(x, y) <= 0 && c(y, z) <= 0 ==> c(x, z) <= 0)
  }

  function CompareNat(x: nat, y: nat): int {
    if x < y then -1 else if x > y then 1 else 0
  }

  function CompareChar(x: char, y: char): int {
    CompareNat(x as nat, y as nat)
  }

  /** Field by field from the left; when one list is a prefix of the other it is smaller. */
  function CompareSeq<T(!new)>(c: (T, T) -> int, a: seq<T>, b: seq<T>): int {
    if a == [] then (if b == [] then 0 else -1)
    else if b == [] then 1
    else if c(a[0], b[0]) != 0 then c(a[0], b[0])
    else CompareSeq(c, a[1..], b[1..])
  }

  function CompareString(a: string, b: string): int {
    CompareSeq(CompareChar, a, b)
  }

  function CompareIdent(x: Ident, y: Ident): int {
    match (x, y)
    case (Num(m), Num(n)) => CompareNat(m, n)
    case (Num(_), Alpha(_)) => -1
    case (Alpha(_), Num(_)) => 1
    case (Alpha(s), Alpha(t)) => CompareString(s, t)
  }

  /** A version without a pre-release ranks above every pre-release of it. */
  function ComparePre(x: seq<Ident>, y: seq<Ident>): int {
    if x == y then 0 else if x == [] then 1 else if y == [] then -1 else CompareSeq(CompareIdent, x, y)
  }

  function Compare(v: Version, w: Version): int {
    if v.major != w.major then CompareNat(v.major, w.major)
    else if v.minor != w.minor then CompareNat(v.minor, w.minor)
    else if v.patch != w.patch then CompareNat(v.patch, w.patch)
    else ComparePre(v.pre, w.pre)
  }

  lemma {:induction false} CompareSeqPair<T(!new)>(c: (T, T) -> int, a: seq<T>, b: seq<T>)
    requires Linear(c)
    ensures -1 <= CompareSeq(c, a, b) <= 1 && CompareSeq(c, b, a) == -CompareSeq(c, a, b)
    ensures CompareSeq(c, a, b) == 0 <==> a == b
  {
    if a != [] && b != [] {
      assert c(b[0], a[0]) == -c(a[0], b[0]);
      CompareSeqPair(c, a[1..], b[1..]);
      assert a == [a[0]] + a[1..] && b == [b[0]] + b[1..];
    }
  }

  lemma {:induction false} CompareSeqTransitive<T(!new)>(c: (T, T) -> int, x: seq<T>, y: seq<T>, z: seq<T>)
    requires Linear(c) && CompareSeq(c, x, y) <= 0 && CompareSeq(c, y, z) <= 0
    ensures CompareSeq(c, x, z) <= 0
  {
    if x != [] && y != [] && z != [] {
      assert c(x[0], y[0]) <= 0 && c(y[0], z[0]) <= 0;
      assert c(z[0], x[0]) == -c(x[0], z[0]);
      if c(x[0], z[0]) == 0 {
        assert c(y[0], z[0]) == -c(z[0], y[0]) == 0;
        CompareSeqTransitive(c, x[1..], y[1..], z[1..]);
      }
    }
  }

  lemma CompareSeqLinear<T(!new)>(c: (T, T) -> int)
    requires Linear(c)
    ensures Linear((a: seq<T>, b: seq<T>) => CompareSeq(c, a, b))
  {
    forall a: seq<T>, b: seq<T> { CompareSeqPair(c, a, b); }
    forall x: seq<T>, y: seq<T>, z: seq<T> | CompareSeq(c, x, y) <= 0 && CompareSeq(c, y, z) <= 0
      ensures CompareSeq(c, x, z) <= 0
    {
      CompareSeqTransitive(c, x, y, z);
    }
  }

  lemma CompareStringLinear()
    ensures Linear(CompareString)
  {
    assert Linear(CompareChar);
    CompareSeqLinear(CompareChar);
    forall a, b ensures CompareString(a, b) == ((x: string, y: string) => CompareSeq(CompareChar, x, y))(a, b) {}
  }

  lemma CompareIdentLinear()
    ensures Linear(CompareIdent)
  {
    CompareStringLinear();
    var c := CompareString;
    forall x: Ident, y: Ident
      ensures -1 <= CompareIdent(x, y) <= 1 && CompareIdent(y, x) == -CompareIdent(x, y)
      ensures CompareIdent(x, y) == 0 <==> x == y
    {
      if x.Alpha? && y.Alpha? {
        assert c(y.s, x.s) == -c(x.s, y.s);
      }
    }
    forall x: Ident, y: Ident, z: Ident | CompareIdent(x, y) <= 0 && CompareIdent(y, z) <= 0
      ensures CompareIdent(x, z) <= 0
    {
      if x.Alpha? && y.Alpha? && z.Alpha? {
        assert c(x.s, y.s) <= 0 && c(y.s, z.s) <= 0;
      }
    }
  }

  lemma ComparePreLinear()
    ensures Linear(ComparePre)
  {
    CompareIdentLinear();
    forall x, y ensures ComparePre(y, x) == -ComparePre(x, y) && -1 <= ComparePre(x, y) <= 1
                ensures ComparePre(x, y) == 0 <==> x == y
    {
      CompareSeqPair(CompareIdent, x, y);
    }
    forall x, y, z | ComparePre(x, y) <= 0 && ComparePre(y, z) <= 0 ensures ComparePre(x, z) <= 0 {
      CompareSeqPair(CompareIdent, x, y);
      CompareSeqPair(CompareIdent, y, z);
      if x != [] && y != [] && z != [] {
        CompareSeqTransitive(CompareIdent, x, y, z);
      }
    }
  }

  /** Precedence is a total order on parsed versions. */
  lemma CompareLinear()
    ensures Linear(Compare)
  {
    ComparePreLinear();
    forall x: Version, y: Version ensures Compare(y, x) == -Compare(x, y) && -1 <= Compare(x, y) <= 1
                                  ensures Compare(x, y) == 0 <==> x == y {
      assert ComparePre(y.pre, x.pre) == -ComparePre(x.pre, y.pre);
    }
    forall x: Version, y: Version, z: Version | Compare(x, y) <= 0 && Compare(y, z) <= 0
      ensures Compare(x, z) <= 0
    {
      assert ComparePre(x.pre, y.pre) <= 0 && ComparePre(y.pre, z.pre) <= 0 ==> ComparePre(x.pre, z.pre) <= 0;
    }
  }

  /** The same, for given versions. */
  lemma CompareFacts(x: Version, y: Version, z: Version)
    ensures -1 <= Compare(x, y) <= 1 && Compare(y, x) == -Compare(x, y)
    ensures Compare(x, y) == 0 <==> x == y
    ensures Compare(x, y) <= 0 && Compare(y, z) <= 0 ==> Compare(x, z) <= 0
  {
    CompareLinear();
    var c := Compare;
    assert Linear(c);
    assert c(y, x) == -c(x, y);
  }

  // ----- Parsing -----

  predicate IsIdentChar(c: char) {
    'A' <= c <= 'Z' || 'a' <= c <= 'z' || IsDigit(c) || c == '-'
  }

  function DigitRun(s: string): (n: nat)
    ensures n <= |s|
  {
    if s == [] || !IsDigit(s[0]) then 0 else 1 + DigitRun(s[1..])
  }

  /** A number without leading zeros, and what follows it. */
  function ParseInt(s: string): (r: Option<(nat, string)>)
    ensures r.Some? ==> |r.value.1| < |s|
  {
    var n := DigitRun(s);
    if n == 0 || (s[0] == '0' && n != 1) then None else Some((NatOf(s[..n]), s[n..]))
  }

  function IndexOf(s: string, c: char): (n: nat)
    ensures n <= |s| && c !in s[..n] && (n < |s| ==> s[n] == c)
    ensures n == |s| <==> c !in s
  {
    if s == [] then 0
    else if s[0] == c then 0
    else
      var n := IndexOf(s[1..], c);
      assert s == [s[0]] + s[1..] && s[..n + 1] == [s[0]] + s[1..][..n];
      n + 1
  }

  lemma {:induction false} IndexOfConcat(s: string, sep: char, t: string)
    requires sep !in s
    ensures IndexOf(s + ([sep] + t), sep) == |s|
  {
    if s == [] {
      assert s + ([sep] + t) == [sep] + t;
    } else {
      assert (s + ([sep] + t))[1..] == s[1..] + ([sep] + t);
      IndexOfConcat(s[1..], sep, t);
    }
  }

  /** strings.Split on a single character. */
  function Split(s: string, c: char): (r: seq<string>)
    ensures |r| >= 1
  {
    if s == [] then [[]]
    else
      var rest := Split(s[1..], c);
      if s[0] == c then [[]] + rest else [[s[0]] + rest[0]] + rest[1..]
  }

  predicate ValidIdent(s: string) {
    s != [] && forall c :: c in s ==> IsIdentChar(c)
  }

  function ParseIdent(s: string): Option<Ident> {
    if !ValidIdent(s) then None
    else if DigitRun(s) < |s| then Some(Alpha(s))
    else if |s| > 1 && s[0] == '0' then None
    else Some(Num(NatOf(s)))
  }

  function ParseIdents(parts: seq<string>): Option<seq<Ident>> {
    if parts == [] then Some([])
    else match (ParseIdent(parts[0]), ParseIdents(parts[1..]))
      case (Some(i), Some(rest)) => Some([i] + rest)
      case _ => None
  }

  /** What may follow major.minor.patch: "-pre", "+build", or "-pre+build". */
  function ParseTail(s: string): Option<seq<Ident>> {
    var cut := IndexOf(s, '+');
    if cut < |s| && !(forall p :: p in Split(s[cut + 1..], '.') ==> ValidIdent(p)) then None
    else if cut == 0 then Some([])
    else if s[0] != '-' then None
    else ParseIdents(Split(s[1..cut], '.'))
  }

  datatype Fields = Fields(numbers: seq<nat>, pre: seq<Ident>)

  /**
   Up to n dot-separated numbers and, behind the nth, what may follow it; a string that ends
   behind an earlier number is a short form.
   */
  function ParseFields(n: nat, s: string): (r: Option<Fields>)
    ensures r.Some? ==> |r.value.numbers| <= n && (n > 0 ==> r.value.numbers != [])
    decreases |s|
  {
    if n == 0 then
      var pre := ParseTail(s);
      if pre.None? then None else Some(Fields([], pre.value))
    else
      var first := ParseInt(s);
      if first.None? then None
      else
        var (number, rest) := first.value;
        if n > 1 && rest == [] then Some(Fields([number], []))
        else if n > 1 && rest[0] != '.' then None
        else
          var more := ParseFields(n - 1, if n > 1 then rest[1..] else rest);
          if more.None? then None else Some(Fields([number] + more.value.numbers, more.value.pre))
  }

  function NumberAt(numbers: seq<nat>, i: nat): nat {
    if i < |numbers| then numbers[i] else 0
  }

  function Parse(v: string): Option<Version> {
    if v == [] || v[0] != 'v' then None
    else
      var fields := ParseFields(3, v[1..]);
      if fields.None? then None
      else
        var numbers := fields.value.numbers;
        Some(Version(NumberAt(numbers, 0), NumberAt(numbers, 1), NumberAt(numbers, 2), fields.value.pre))
  }

  // ----- Build metadata is ignored -----

  lemma {:induction false} DigitRunCut(s: string)
    ensures var k := IndexOf(s, '+'); DigitRun(s) <= k && DigitRun(s[..k]) == DigitRun(s)
  {
    if s != [] && IsDigit(s[0]) {
      DigitRunCut(s[1..]);
      assert s[..IndexOf(s, '+')][1..] == s[1..][..IndexOf(s[1..], '+')];
    }
  }

  lemma {:induction false} IndexOfDrop(s: string, n: nat)
    requires n <= IndexOf(s, '+')
    ensures IndexOf(s[n..], '+') == IndexOf(s, '+') - n
  {
    if n > 0 {
      IndexOfDrop(s[1..], n - 1);
      assert s[1..][n - 1..] == s[n..];
    } else {
      assert s[0..] == s;
    }
  }

  lemma ParseIntCut(s: string)
    ensures ParseInt(s).None? ==> ParseInt(s[..IndexOf(s, '+')]).None?
    ensures ParseInt(s).Some? ==>
      var rest := ParseInt(s).value.1;
      ParseInt(s[..IndexOf(s, '+')]) == Some((ParseInt(s).value.0, rest[..IndexOf(rest, '+')]))
  {
    var k, n := IndexOf(s, '+'), DigitRun(s);
    DigitRunCut(s);
    IndexOfDrop(s, n);
    assert s[..k][..n] == s[..n] && s[..k][n..] == s[n..][..k - n];
  }

  lemma IndexOfPrefix(s: string)
    ensures IndexOf(s[..IndexOf(s, '+')], '+') == IndexOf(s, '+')
  {
  }

  function BeforeBuild(s: string): string {
    s[..IndexOf(s, '+')]
  }

  lemma BeforeBuildDrop(s: string)
    requires s != [] && s[0] != '+'
    ensures BeforeBuild(s) != [] && BeforeBuild(s)[0] == s[0] && BeforeBuild(s)[1..] == BeforeBuild(s[1..])
  {
    IndexOfDrop(s, 1);
  }

  lemma TailIgnoresBuild(s: string)
    requires ParseTail(s).Some?
    ensures ParseTail(BeforeBuild(s)) == ParseTail(s)
  {
    var h := BeforeBuild(s);
    IndexOfPrefix(s);
    assert |h| > 0 ==> h[1..IndexOf(h, '+')] == s[1..IndexOf(s, '+')];
  }

  lemma {:induction false} FieldsIgnoreBuild(n: nat, s: string)
    requires ParseFields(n, s).Some?
    ensures ParseFields(n, BeforeBuild(s)) == ParseFields(n, s)
    decreases n
  {
    if n == 0 {
      TailIgnoresBuild(s);
    } else {
      ParseIntCut(s);
      var rest := ParseInt(s).value.1;
      if n == 1 {
        FieldsIgnoreBuild(0, rest);
      } else if rest != [] {
        BeforeBuildDrop(rest);
        FieldsIgnoreBuild(n - 1, rest[1..]);
      }
    }
  }

  /** Whatever a version string carries from its first '+' on has no effect (section 10). */
  lemma BuildIgnored(v: string)
    requires Parse(v).Some?
    ensures Parse(BeforeBuild(v)) == Parse(v)
  {
    BeforeBuildDrop(v);
    FieldsIgnoreBuild(3, v[1..]);
  }

  // ----- Parsing inverts the canonical rendering -----

  ghost predicate ValidIdents(pre: seq<Ident>) {
    forall i :: i in pre && i.Alpha? ==> ValidIdent(i.s) && DigitRun(i.s) < |i.s|
  }

  ghost predicate ValidVersion(v: Version) { ValidIdents(v.pre) }

  function RenderIdent(i: Ident): string {
    match i
    case Num(n) => Itoa(n)
    case Alpha(s) => s
  }

  function RenderIdents(pre: seq<Ident>): string {
    if pre == [] then []
    else if |pre| == 1 then RenderIdent(pre[0])
    else RenderIdent(pre[0]) + "." + RenderIdents(pre[1..])
  }

  function RenderTail(pre: seq<Ident>): string {
    if pre == [] then "" else "-" + RenderIdents(pre)
  }

  function RenderFields(numbers: seq<nat>, pre: seq<Ident>): string {
    if numbers == [] then RenderTail(pre)
    else Itoa(numbers[0]) + ((if |numbers| > 1 then "." else "") + RenderFields(numbers[1..], pre))
  }

  function Render(v: Version): string {
    "v" + RenderFields([v.major, v.minor, v.patch], v.pre)
  }

  lemma {:induction false} DigitRunConcat(s: string, t: string)
    requires forall c :: c in s ==> IsDigit(c)
    requires t != [] ==> !IsDigit(t[0])
    ensures DigitRun(s + t) == |s|
  {
    if s == [] {
      assert s + t == t;
    } else {
      assert (s + t)[1..] == s[1..] + t;
      DigitRunConcat(s[1..], t);
    }
  }

  lemma ParseItoa(n: nat, t: string)
    requires t != [] ==> !IsDigit(t[0])
    ensures ParseInt(Itoa(n) + t) == Some((n, t))
  {
    ItoaReadsBack(n);
    DigitRunConcat(Itoa(n), t);
    assert (Itoa(n) + t)[..|Itoa(n)|] == Itoa(n) && (Itoa(n) + t)[|Itoa(n)|..] == t;
  }

  lemma {:induction false} DigitRunAll(s: string)
    ensures DigitRun(s) == |s| <==> forall c :: c in s ==> IsDigit(c)
  {
    if s != [] {
      DigitRunAll(s[1..]);
      assert s == [s[0]] + s[1..];
    }
  }

  lemma ParseRenderIdent(i: Ident)
    requires i.Alpha? ==> ValidIdent(i.s) && DigitRun(i.s) < |i.s|
    ensures ParseIdent(RenderIdent(i)) == Some(i) && ValidIdent(RenderIdent(i))
  {
    if i.Num? {
      ItoaReadsBack(i.n);
      DigitRunAll(Itoa(i.n));
    }
  }

  lemma {:induction false} SplitConcat(s: string, t: string, c: char)
    requires c !in s
    ensures Split(s, c) == [s]
    ensures Split(s + ([c] + t), c) == [s] + Split(t, c)
  {
    if s == [] {
      assert s + ([c] + t) == [c] + t && ([c] + t)[1..] == t;
    } else {
      assert (s + ([c] + t))[1..] == s[1..] + ([c] + t);
      SplitConcat(s[1..], t, c);
      assert [s[0]] + s[1..] == s;
    }
  }

  function RenderEach(pre: seq<Ident>): seq<string> {
    if pre == [] then [] else [RenderIdent(pre[0])] + RenderEach(pre[1..])
  }

  lemma {:induction false} ParseRenderEach(pre: seq<Ident>)
    requires ValidIdents(pre)
    ensures ParseIdents(RenderEach(pre)) == Some(pre)
  {
    if pre != [] {
      ParseRenderIdent(pre[0]);
      ParseRenderEach(pre[1..]);
      assert pre == [pre[0]] + pre[1..];
      assert RenderEach(pre)[1..] == RenderEach(pre[1..]);
    }
  }

  lemma {:induction false} SplitRenderIdents(pre: seq<Ident>)
    requires pre != [] && ValidIdents(pre)
    ensures Split(RenderIdents(pre), '.') == RenderEach(pre)
    ensures '+' !in RenderIdents(pre)
  {
    var head := RenderIdent(pre[0]);
    ParseRenderIdent(pre[0]);
    assert '.' !in head && '+' !in head;
    if |pre| == 1 {
      SplitConcat(head, [], '.');
      assert RenderEach(pre[1..]) == [];
    } else {
      SplitRenderIdents(pre[1..]);
      SplitConcat(head, RenderIdents(pre[1..]), '.');
      assert RenderIdents(pre) == head + (['.'] + RenderIdents(pre[1..]));
    }
  }

  lemma ParseRenderTail(pre: seq<Ident>)
    requires ValidIdents(pre)
    ensures ParseTail(RenderTail(pre)) == Some(pre)
  {
    var tail := RenderTail(pre);
    if pre != [] {
      SplitRenderIdents(pre);
      ParseRenderEach(pre);
      assert '+' !in tail && tail[1..|tail|] == RenderIdents(pre);
    }
  }

  lemma {:induction false} ParseRenderFields(numbers: seq<nat>, pre: seq<Ident>)
    requires ValidIdents(pre)
    ensures ParseFields(|numbers|, RenderFields(numbers, pre)) == Some(Fields(numbers, pre))
  {
    if numbers == [] {
      ParseRenderTail(pre);
    } else {
      var rest := numbers[1..];
      var t := (if |numbers| > 1 then "." else "") + RenderFields(rest, pre);
      ParseRenderFields(rest, pre);
      ParseItoa(numbers[0], t);
      assert |numbers| > 1 ==> t[1..] == RenderFields(rest, pre);
      assert |numbers| == 1 ==> t == RenderTail(pre);
      assert [numbers[0]] + rest == numbers;
    }
  }

  /** Every version is what its canonical rendering parses to. */
  lemma ParseInvertsRender(v: Version)
    requires ValidVersion(v)
    ensures Parse(Render(v)) == Some(v)
  {
    ParseRenderFields([v.major, v.minor, v.patch], v.pre);
    assert Render(v)[1..] == RenderFields([v.major, v.minor, v.patch], v.pre);
  }

  lemma {:induction false} ParseIdentsValid(parts: seq<string>)
    ensures ParseIdents(parts).Some? ==>
      ValidIdents(ParseIdents(parts).value)
  {
    if parts != [] {
      ParseIdentsValid(parts[1..]);
    }
  }

  lemma {:induction false} FieldsValid(n: nat, s: string)
    ensures ParseFields(n, s).Some? ==> ValidIdents(ParseFields(n, s).value.pre)
    decreases n
  {
    if n == 0 {
      var cut := IndexOf(s, '+');
      if cut > 0 { ParseIdentsValid(Split(s[1..cut], '.')); }
    } else if ParseInt(s).Some? {
      var rest := ParseInt(s).value.1;
      if n == 1 {
        FieldsValid(0, rest);
      } else if rest != [] {
        FieldsValid(n - 1, rest[1..]);
      }
    }
  }

  /** Every accepted string has the precedence of a canonical rendering. */
  lemma RenderInvertsParse(s: string)
    requires Parse(s).Some?
    ensures ValidVersion(Parse(s).value) && Parse(Render(Parse(s).value)) == Parse(s)
  {
    FieldsValid(3, s[1..]);
    ParseInvertsRender(Parse(s).value);
  }
}
