/**
 What the comparison of version strings means: section 11 of Semantic Versioning 2.0.0
 spelled out, and exactly which strings denote which version.
 */
module Precedence {
  import opened Wrappers
  import Api
  import opened Decimal
  import opened Semver
  import opened Orders
  import Vers

  // ----- Section 11 -----

  /** The sequences differ at position i, and nowhere before. */
  ghost predicate DifferFirst<T>(a: seq<T>, b: seq<T>, i: int) {
    0 <= i < |a| && i < |b| && a[..i] == b[..i] && a[i] != b[i]
  }

  ghost predicate ProperPrefix<T>(a: seq<T>, b: seq<T>) {
    |a| < |b| && b[..|a|] == a
  }

  /** Alphanumerics: by the first differing character, and a proper prefix is lower. */
  ghost predicate StringAbove(s: string, t: string) {
    (exists i :: DifferFirst(s, t, i) && s[i] > t[i]) || ProperPrefix(t, s)
  }

  /** Numbers by value, any number below any alphanumeric. */
  ghost predicate IdentAbove(x: Ident, y: Ident) {
    match (x, y)
    case (Num(m), Num(n)) => m > n
    case (Num(_), Alpha(_)) => false
    case (Alpha(_), Num(_)) => true
    case (Alpha(s), Alpha(t)) => StringAbove(s, t)
  }

  /** No pre-release is above any; else the first differing identifier decides, and a proper prefix is lower. */
  ghost predicate PreAbove(x: seq<Ident>, y: seq<Ident>) {
    if x == [] || y == [] then x == [] && y != []
    else (exists i :: DifferFirst(x, y, i) && IdentAbove(x[i], y[i])) || ProperPrefix(y, x)
  }

  /** v has higher precedence than w: the first differing number decides, and then the pre-release. */
  ghost predicate Above(v: Version, w: Version) {
    if v.major != w.major then v.major > w.major
    else if v.minor != w.minor then v.minor > w.minor
    else if v.patch != w.patch then v.patch > w.patch
    else PreAbove(v.pre, w.pre)
  }

  lemma DifferFirstTail<T>(a: seq<T>, b: seq<T>, i: int)
    requires a != [] && b != [] && a[0] == b[0]
    ensures DifferFirst(a, b, i) <==> DifferFirst(a[1..], b[1..], i - 1)
  {
    if 0 < i <= |a| && i <= |b| {
      assert a[..i] == [a[0]] + a[1..][..i - 1] && b[..i] == [b[0]] + b[1..][..i - 1];
      assert a[..i][1..] == a[1..][..i - 1] && b[..i][1..] == b[1..][..i - 1];
    }
  }

  lemma ProperPrefixTail<T>(a: seq<T>, b: seq<T>)
    requires a != [] && b != [] && a[0] == b[0]
    ensures ProperPrefix(a, b) <==> ProperPrefix(a[1..], b[1..])
  {
    if |a| < |b| {
      assert b[..|a|] == [b[0]] + b[1..][..|a| - 1] && a == [a[0]] + a[1..];
      assert b[..|a|][1..] == b[1..][..|a| - 1];
    }
  }

  /** Where comparing field by field comes out above. */
  ghost predicate SeqAbove<T(!new)>(c: (T, T) -> int, a: seq<T>, b: seq<T>) {
    (exists i :: DifferFirst(a, b, i) && c(a[i], b[i]) > 0) || ProperPrefix(b, a)
  }

  lemma {:induction false} CompareSeqMeans<T(!new)>(c: (T, T) -> int, a: seq<T>, b: seq<T>)
    requires Linear(c)
    ensures CompareSeq(c, a, b) > 0 <==> SeqAbove(c, a, b)
  {
    if a != [] && b != [] {
      if a[0] != b[0] {
        assert c(a[0], b[0]) != 0;
        if SeqAbove(c, a, b) {
          assert !ProperPrefix(b, a) by { assert |b| < |a| ==> a[..|b|][0] == a[0]; }
          var i :| DifferFirst(a, b, i) && c(a[i], b[i]) > 0;
        } else {
          assert !(DifferFirst(a, b, 0) && c(a[0], b[0]) > 0);
        }
      } else {
        CompareSeqMeans(c, a[1..], b[1..]);
        ProperPrefixTail(b, a);
        assert c(a[0], b[0]) == 0;
        if i :| DifferFirst(a, b, i) && c(a[i], b[i]) > 0 {
          DifferFirstTail(a, b, i);
          assert DifferFirst(a[1..], b[1..], i - 1);
        }
        if i :| DifferFirst(a[1..], b[1..], i) && c(a[1..][i], b[1..][i]) > 0 {
          DifferFirstTail(a, b, i + 1);
          assert DifferFirst(a, b, i + 1);
        }
      }
    }
  }

  lemma StringMeans(s: string, t: string)
    ensures CompareString(s, t) > 0 <==> StringAbove(s, t)
  {
    assert Linear(CompareChar);
    CompareSeqMeans(CompareChar, s, t);
  }

  lemma IdentMeans(x: Ident, y: Ident)
    ensures CompareIdent(x, y) > 0 <==> IdentAbove(x, y)
  {
    if x.Alpha? && y.Alpha? { StringMeans(x.s, y.s); }
  }

  lemma PreMeans(x: seq<Ident>, y: seq<Ident>)
    ensures ComparePre(x, y) > 0 <==> PreAbove(x, y)
  {
    CompareIdentLinear();
    CompareSeqMeans(CompareIdent, x, y);
    CompareSeqPair(CompareIdent, x, y);
    forall i | DifferFirst(x, y, i) ensures CompareIdent(x[i], y[i]) > 0 <==> IdentAbove(x[i], y[i]) {
      IdentMeans(x[i], y[i]);
    }
    if i :| DifferFirst(x, y, i) && IdentAbove(x[i], y[i]) { assert SeqAbove(CompareIdent, x, y); }
  }

  /** Comparing two versions is section 11: 1 if the first has higher precedence, 0 only on equals. */
  lemma PrecedenceMeans(v: Version, w: Version)
    ensures Semver.Compare(v, w) == if v == w then 0 else if Above(v, w) then 1 else -1
    ensures v != w ==> (Above(v, w) <==> !Above(w, v))
  {
    CompareFacts(v, w, w);
    PreMeans(v.pre, w.pre);
    PreMeans(w.pre, v.pre);
  }

  // ----- Which strings denote a version -----

  predicate Identifier(s: string) {
    s != "" && forall c :: c in s ==> 'A' <= c <= 'Z' || 'a' <= c <= 'z' || '0' <= c <= '9' || c == '-'
  }

  /** Alphanumeric identifiers are identifiers that are not numbers. */
  ghost predicate WellFormed(v: Version) {
    forall i :: i in v.pre && i.Alpha? ==> Identifier(i.s) && exists c :: c in i.s && !('0' <= c <= '9')
  }

  function Joined(parts: seq<string>): string {
    if parts == [] then "" else if |parts| == 1 then parts[0] else parts[0] + ("." + Joined(parts[1..]))
  }

  function Numerals(numbers: seq<nat>): seq<string> {
    if numbers == [] then [] else [Itoa(numbers[0])] + Numerals(numbers[1..])
  }

  function Texts(pre: seq<Ident>): seq<string> {
    if pre == [] then []
    else [match pre[0] { case Num(n) => Itoa(n) case Alpha(s) => s }] + Texts(pre[1..])
  }

  function PreText(pre: seq<Ident>): string {
    if pre == [] then "" else "-" + Joined(Texts(pre))
  }

  /** Dot-separated identifiers behind a plus sign, or nothing. */
  ghost predicate IsBuild(t: string) {
    t == "" || exists parts :: parts != [] && (forall p :: p in parts ==> Identifier(p)) && t == "+" + Joined(parts)
  }

  /** The text of the numbers alone, which may leave out trailing zeros unless something follows. */
  ghost predicate SpellsShort(s: string, v: Version) {
    && v.patch == 0 && v.pre == []
    && (s == Joined(Numerals([v.major, v.minor])) || (v.minor == 0 && s == Joined(Numerals([v.major]))))
  }

  ghost predicate SpellsFull(s: string, v: Version, build: string) {
    IsBuild(build) && s == Joined(Numerals([v.major, v.minor, v.patch])) + (PreText(v.pre) + build)
  }

  /** s is what may stand behind the "v" of a text of the version. */
  ghost predicate Spells(s: string, v: Version) {
    SpellsShort(s, v) || exists build :: SpellsFull(s, v, build)
  }

  lemma {:induction false} JoinedSplit(s: string)
    ensures Joined(Split(s, '.')) == s
  {
    if s != [] {
      var rest := Split(s[1..], '.');
      JoinedSplit(s[1..]);
      if s[0] == '.' {
        assert ([[]] + rest)[1..] == rest;
        assert s == "." + s[1..];
      } else {
        var parts := [[s[0]] + rest[0]] + rest[1..];
        assert parts[1..] == rest[1..];
        assert s == [s[0]] + s[1..];
      }
    }
  }

  lemma {:induction false} SplitJoined(parts: seq<string>)
    requires parts != [] && forall p :: p in parts ==> Identifier(p)
    ensures Split(Joined(parts), '.') == parts && '+' !in Joined(parts)
  {
    assert parts[0] in parts && '.' !in parts[0] && '+' !in parts[0];
    if |parts| == 1 {
      SplitConcat(parts[0], [], '.');
    } else {
      SplitJoined(parts[1..]);
      SplitConcat(parts[0], Joined(parts[1..]), '.');
      assert parts == [parts[0]] + parts[1..];
    }
  }

  lemma IdentText(s: string)
    requires ParseIdent(s).Some?
    ensures Texts([ParseIdent(s).value]) == [s] && Identifier(s)
  {
    DigitRunAll(s);
    var i := ParseIdent(s).value;
    if i.Num? { ItoaOfNat(s); }
    assert Texts([i][1..]) == [];
  }

  lemma {:induction false} IdentsText(parts: seq<string>)
    requires ParseIdents(parts).Some?
    ensures Texts(ParseIdents(parts).value) == parts
  {
    if parts != [] {
      IdentText(parts[0]);
      IdentsText(parts[1..]);
      var pre := ParseIdents(parts).value;
      assert pre[1..] == ParseIdents(parts[1..]).value && [pre[0]][0] == pre[0];
      assert parts == [parts[0]] + parts[1..];
    }
  }

  lemma {:induction false} DigitsOfRun(s: string)
    ensures forall c :: c in s[..DigitRun(s)] ==> IsDigit(c)
  {
    if s != [] && IsDigit(s[0]) {
      DigitsOfRun(s[1..]);
      assert s[..DigitRun(s)] == [s[0]] + s[1..][..DigitRun(s[1..])];
    }
  }

  lemma IntText(s: string)
    requires ParseInt(s).Some?
    ensures s == Itoa(ParseInt(s).value.0) + ParseInt(s).value.1
  {
    var n := DigitRun(s);
    DigitsOfRun(s);
    ItoaOfNat(s[..n]);
  }

  lemma BuildText(s: string)
    requires ParseTail(s).Some?
    ensures IsBuild(s[IndexOf(s, '+')..])
  {
    var cut := IndexOf(s, '+');
    if cut < |s| {
      var parts := Split(s[cut + 1..], '.');
      JoinedSplit(s[cut + 1..]);
      forall p | p in parts ensures Identifier(p) { assert ValidIdent(p); }
      assert s[cut..] == "+" + Joined(parts);
    }
  }

  lemma BeforeBuildText(s: string)
    requires ParseTail(s).Some?
    ensures s[..IndexOf(s, '+')] == PreText(ParseTail(s).value)
  {
    var cut := IndexOf(s, '+');
    if cut > 0 {
      IdentsText(Split(s[1..cut], '.'));
      JoinedSplit(s[1..cut]);
      assert s[..cut] == "-" + s[1..cut];
    }
  }

  lemma CutAt(s: string, n: nat)
    requires n <= |s|
    ensures s == s[..n] + s[n..]
  {
  }

  /** What follows the numbers of an accepted text. */
  lemma TailText(s: string) returns (build: string)
    requires ParseTail(s).Some?
    ensures IsBuild(build) && s == PreText(ParseTail(s).value) + build
  {
    BuildText(s);
    BeforeBuildText(s);
    build := s[IndexOf(s, '+')..];
    CutAt(s, IndexOf(s, '+'));
  }

  lemma NumeralsStep(numbers: seq<nat>)
    requires numbers != []
    ensures Joined(Numerals(numbers)) ==
      if |numbers| == 1 then Itoa(numbers[0]) else Itoa(numbers[0]) + ("." + Joined(Numerals(numbers[1..])))
  {
    assert Numerals(numbers)[1..] == Numerals(numbers[1..]);
    assert |numbers| > 1 ==> Numerals(numbers[1..]) != [];
  }

  /** What an accepted text consists of: a number, and after it nothing, what follows the numbers, or more of them. */
  lemma FieldsOpened(n: nat, s: string)
    requires n > 0 && ParseFields(n, s).Some?
    ensures ParseInt(s).Some?
    ensures var (k, rest) := ParseInt(s).value;
      if n == 1 then ParseTail(rest).Some? && ParseFields(n, s) == Some(Fields([k], ParseTail(rest).value))
      else if rest == "" then ParseFields(n, s) == Some(Fields([k], []))
      else
        && rest[0] == '.' && ParseFields(n - 1, rest[1..]).Some?
        && var more := ParseFields(n - 1, rest[1..]).value;
           more.numbers != [] && ParseFields(n, s) == Some(Fields([k] + more.numbers, more.pre))
  {
    if n == 1 {
      var rest := ParseInt(s).value.1;
      assert ParseFields(0, rest) == if ParseTail(rest).None? then None else Some(Fields([], ParseTail(rest).value));
      assert [ParseInt(s).value.0] + [] == [ParseInt(s).value.0];
    }
  }

  /** An accepted text is its numbers and what follows them, or fewer numbers alone. */
  ghost predicate Spelled(n: nat, s: string, f: Fields, build: string) {
    if |f.numbers| == n then IsBuild(build) && s == Joined(Numerals(f.numbers)) + (PreText(f.pre) + build)
    else f.pre == [] && s == Joined(Numerals(f.numbers))
  }

  lemma Regroup(a: string, j: string, t: string)
    ensures a + ("." + (j + t)) == (a + ("." + j)) + t
  {
  }

  lemma OneMoreNumber(n: nat, k: nat, s: string, f: Fields, build: string)
    requires n > 0 && f.numbers != [] && Spelled(n, s, f, build)
    ensures Spelled(n + 1, Itoa(k) + ("." + s), Fields([k] + f.numbers, f.pre), build)
  {
    var all := [k] + f.numbers;
    NumeralsStep(all);
    assert all[1..] == f.numbers;
    Regroup(Itoa(k), Joined(Numerals(f.numbers)), PreText(f.pre) + build);
  }

  lemma {:induction false} FieldsText(n: nat, s: string) returns (build: string)
    requires n > 0 && ParseFields(n, s).Some?
    ensures Spelled(n, s, ParseFields(n, s).value, build)
    decreases n
  {
    build := "";
    FieldsOpened(n, s);
    var (k, rest) := ParseInt(s).value;
    IntText(s);
    NumeralsStep([k]);
    if n == 1 {
      build := TailText(rest);
    } else if rest != "" {
      var more := rest[1..];
      assert rest == "." + more;
      build := FieldsText(n - 1, more);
      var f := ParseFields(n - 1, more).value;
      OneMoreNumber(n - 1, k, more, f, build);
      assert ParseFields(n, s) == Some(Fields([k] + f.numbers, f.pre));
    }
  }

  /** Whatever is accepted is a text of the version it denotes. */
  lemma ParsedSpells(s: string)
    requires Parse(s).Some?
    ensures s[0] == 'v' && Spells(s[1..], Parse(s).value) && WellFormed(Parse(s).value)
  {
    var fields, v := ParseFields(3, s[1..]).value, Parse(s).value;
    var build := FieldsText(3, s[1..]);
    var n := |fields.numbers|;
    if n == 3 {
      assert fields.numbers == [v.major, v.minor, v.patch];
      assert SpellsFull(s[1..], v, build);
    } else if n == 2 {
      assert fields.numbers == [v.major, v.minor];
    } else {
      assert fields.numbers == [v.major];
    }
    FieldsValid(3, s[1..]);
    forall i | i in v.pre && i.Alpha? ensures Identifier(i.s) && exists c :: c in i.s && !('0' <= c <= '9') {
      DigitRunAll(i.s);
    }
  }

  // ----- Every text of a version is accepted -----

  lemma {:induction false} TextsParse(pre: seq<Ident>)
    requires forall i :: i in pre && i.Alpha? ==> Identifier(i.s) && exists c :: c in i.s && !('0' <= c <= '9')
    ensures ParseIdents(Texts(pre)) == Some(pre) && |Texts(pre)| == |pre|
    ensures forall p :: p in Texts(pre) ==> Identifier(p)
  {
    if pre != [] {
      var i := pre[0];
      if i.Alpha? { DigitRunAll(i.s); }
      ParseRenderIdent(i);
      TextsParse(pre[1..]);
      assert pre == [i] + pre[1..] && Texts(pre)[1..] == Texts(pre[1..]);
      assert Texts(pre)[0] == RenderIdent(i) && Identifier(RenderIdent(i));
    }
  }

  lemma BuildStarts(front: string, build: string)
    requires '+' !in front && IsBuild(build)
    ensures IndexOf(front + build, '+') == |front| && (front + build)[..|front|] == front
    ensures build != "" ==> forall p :: p in Split((front + build)[|front| + 1..], '.') ==> ValidIdent(p)
  {
    var s := front + build;
    if build != "" {
      var parts :| parts != [] && (forall p :: p in parts ==> Identifier(p)) && build == "+" + Joined(parts);
      IndexOfConcat(front, '+', Joined(parts));
      SplitJoined(parts);
      assert s[|front| + 1..] == Joined(parts);
    } else {
      assert s == front;
    }
  }

  lemma TailParses(pre: seq<Ident>, build: string)
    requires forall i :: i in pre && i.Alpha? ==> Identifier(i.s) && exists c :: c in i.s && !('0' <= c <= '9')
    requires IsBuild(build)
    ensures ParseTail(PreText(pre) + build) == Some(pre)
  {
    var front := PreText(pre);
    TextsParse(pre);
    if pre != [] {
      SplitJoined(Texts(pre));
      assert front[1..] == Joined(Texts(pre));
    }
    BuildStarts(front, build);
    var s := front + build;
    assert pre != [] ==> s[..|front|][1..] == s[1..|front|];
  }

  lemma FieldsLast(k: nat, pre: seq<Ident>, tail: string)
    requires (tail != "" ==> !IsDigit(tail[0])) && ParseTail(tail) == Some(pre)
    ensures ParseFields(1, Itoa(k) + tail) == Some(Fields([k], pre))
  {
    ParseItoa(k, tail);
    assert ParseFields(0, tail) == Some(Fields([], pre));
    assert [k] + [] == [k];
  }

  lemma FieldsAlone(n: nat, k: nat)
    requires n > 1
    ensures ParseFields(n, Itoa(k)) == Some(Fields([k], []))
  {
    ParseItoa(k, "");
    assert Itoa(k) + "" == Itoa(k);
  }

  lemma FieldsMore(n: nat, k: nat, more: string)
    requires n > 1 && ParseFields(n - 1, more).Some?
    ensures ParseFields(n, Itoa(k) + ("." + more)) ==
      var f := ParseFields(n - 1, more).value; Some(Fields([k] + f.numbers, f.pre))
  {
    ParseItoa(k, "." + more);
    assert ("." + more)[1..] == more;
  }

  lemma {:induction false} FieldsParse(numbers: seq<nat>, pre: seq<Ident>, build: string)
    requires forall i :: i in pre && i.Alpha? ==> Identifier(i.s) && exists c :: c in i.s && !('0' <= c <= '9')
    requires numbers != [] && IsBuild(build)
    ensures ParseFields(|numbers|, Joined(Numerals(numbers)) + (PreText(pre) + build)) == Some(Fields(numbers, pre))
  {
    var first, rest, tail := numbers[0], numbers[1..], PreText(pre) + build;
    NumeralsStep(numbers);
    assert numbers == [first] + rest;
    if rest == [] {
      TailParses(pre, build);
      FieldsLast(first, pre, tail);
      assert numbers == [first];
    } else {
      var more := Joined(Numerals(rest));
      FieldsParse(rest, pre, build);
      FieldsMore(|numbers|, first, more + tail);
      Regroup(Itoa(first), more, tail);
    }
  }

  lemma {:induction false} ShortParse(numbers: seq<nat>, n: nat)
    requires 0 < |numbers| < n
    ensures ParseFields(n, Joined(Numerals(numbers))) == Some(Fields(numbers, []))
  {
    var first, rest := numbers[0], numbers[1..];
    NumeralsStep(numbers);
    assert numbers == [first] + rest;
    if rest == [] {
      FieldsAlone(n, first);
      assert numbers == [first];
    } else {
      ShortParse(rest, n - 1);
      FieldsMore(n, first, Joined(Numerals(rest)));
    }
  }

  lemma TextParses(s: string, v: Version)
    requires WellFormed(v) && Spells(s, v)
    ensures Parse("v" + s) == Some(v)
  {
    assert ("v" + s)[1..] == s;
    if build :| SpellsFull(s, v, build) {
      FieldsParse([v.major, v.minor, v.patch], v.pre, build);
    } else if s == Joined(Numerals([v.major, v.minor])) {
      ShortParse([v.major, v.minor], 3);
    } else {
      ShortParse([v.major], 3);
    }
  }

  /** Exactly the texts of a version, behind a "v", denote it. */
  lemma TextsExactly(s: string, v: Version)
    ensures Parse("v" + s) == Some(v) <==> WellFormed(v) && Spells(s, v)
  {
    var w := "v" + s;
    assert w[1..] == s;
    if Parse(w).Some? { ParsedSpells(w); }
    if WellFormed(v) && Spells(s, v) { TextParses(s, v); }
  }

  // ----- Version strings under a scheme -----

  /** The code points of Unicode's White_Space. */
  predicate White(c: char) {
    var n := c as int;
    || 0x9 <= n <= 0xd || n == 0x20 || n == 0x85 || n == 0xa0 || n == 0x1680 || 0x2000 <= n <= 0x200a
    || 0x2028 <= n <= 0x2029 || n == 0x202f || n == 0x205f || n == 0x3000
  }

  lemma SpaceMeans(c: char)
    ensures Vers.IsSpace(c) <==> White(c)
  {
  }

  ghost predicate AllSpace(s: string) { forall c :: c in s ==> Vers.IsSpace(c) }

  ghost predicate Writes(text: string, v: Version) {
    text != "" && Spells(if text[0] == 'v' then text[1..] else text, v)
  }

  /** s denotes v: a text of it, with or without a leading "v", and with space around. */
  ghost predicate Denotes(s: string, v: Version) {
    WellFormed(v) && exists l, text, r :: AllSpace(l) && AllSpace(r) && s == l + text + r && Writes(text, v)
  }

  lemma {:induction false} NumeralsDigits(numbers: seq<nat>)
    requires numbers != []
    ensures Joined(Numerals(numbers)) != "" && IsDigit(Joined(Numerals(numbers))[0])
    ensures forall c :: c in Joined(Numerals(numbers)) ==> IsDigit(c) || c == '.'
  {
    ItoaReadsBack(numbers[0]);
    NumeralsStep(numbers);
    assert Itoa(numbers[0])[0] in Itoa(numbers[0]);
    if |numbers| > 1 { NumeralsDigits(numbers[1..]); }
  }

  lemma {:induction false} JoinedSolid(parts: seq<string>)
    requires forall p :: p in parts ==> Identifier(p)
    ensures forall c :: c in Joined(parts) ==> !Vers.IsSpace(c)
  {
    if parts != [] {
      JoinedSolid(parts[1..]);
      assert Identifier(parts[0]);
    }
  }

  /** No text of a version has space in it, and it starts with a digit. */
  lemma SpellsSolid(s: string, v: Version)
    requires WellFormed(v) && Spells(s, v)
    ensures s != "" && IsDigit(s[0]) && forall c :: c in s ==> !Vers.IsSpace(c)
  {
    NumeralsDigits([v.major, v.minor, v.patch]);
    NumeralsDigits([v.major, v.minor]);
    NumeralsDigits([v.major]);
    TextsParse(v.pre);
    JoinedSolid(Texts(v.pre));
    if build :| SpellsFull(s, v, build) {
      if build != "" {
        var parts :| parts != [] && (forall p :: p in parts ==> Identifier(p)) && build == "+" + Joined(parts);
        JoinedSolid(parts);
      }
    }
  }

  lemma {:induction false} TrimLeftSkips(l: string, t: string)
    requires AllSpace(l) && t != "" && !Vers.IsSpace(t[0])
    ensures Vers.TrimLeft(l + t) == t
  {
    if l == "" {
      assert l + t == t;
    } else {
      assert (l + t)[1..] == l[1..] + t && l[0] in l;
      TrimLeftSkips(l[1..], t);
    }
  }

  lemma {:induction false} TrimRightSkips(t: string, r: string)
    requires AllSpace(r) && t != "" && !Vers.IsSpace(t[|t| - 1])
    ensures Vers.TrimRight(t + r) == t
  {
    if r == "" {
      assert t + r == t;
    } else {
      var front := r[..|r| - 1];
      assert r == front + [r[|r| - 1]] && r[|r| - 1] in r;
      assert (t + r)[..|t + r| - 1] == t + front;
      TrimRightSkips(t, front);
    }
  }

  lemma {:induction false} TrimLeftRemoves(s: string) returns (l: string)
    ensures AllSpace(l) && s == l + Vers.TrimLeft(s)
  {
    l := "";
    if s != [] && Vers.IsSpace(s[0]) {
      l := TrimLeftRemoves(s[1..]);
      l := [s[0]] + l;
    }
  }

  lemma {:induction false} TrimRightRemoves(s: string) returns (r: string)
    ensures AllSpace(r) && s == Vers.TrimRight(s) + r
  {
    r := "";
    if s != [] && Vers.IsSpace(s[|s| - 1]) {
      r := TrimRightRemoves(s[..|s| - 1]);
      r := r + [s[|s| - 1]];
    }
  }

  lemma Trimmed(l: string, t: string, r: string)
    requires AllSpace(l) && AllSpace(r) && t != "" && forall c :: c in t ==> !Vers.IsSpace(c)
    ensures Vers.TrimSpace(l + t + r) == t
  {
    assert t[0] in t && t[|t| - 1] in t;
    assert l + t + r == l + (t + r) && (t + r)[0] == t[0];
    TrimLeftSkips(l, t + r);
    TrimRightSkips(t, r);
  }

  /** Under an ordered scheme, what denotes a version is read as it. */
  lemma DenotedIsRead(s: string, v: Version, scheme: Api.Scheme)
    requires Vers.SemverLike(scheme) && Denotes(s, v)
    ensures Vers.Sortable(s, scheme) && Parse(Vers.Canonical(s, scheme).0) == Some(v)
  {
    var l, text, r :| AllSpace(l) && AllSpace(r) && s == l + text + r && Writes(text, v);
    var body := if text[0] == 'v' then text[1..] else text;
    SpellsSolid(body, v);
    assert text[0] == 'v' ==> text == "v" + body;
    Trimmed(l, text, r);
    TextsExactly(body, v);
  }

  /** And a version is sortable only if it denotes one. */
  lemma SortableDenotes(s: string, scheme: Api.Scheme)
    requires Vers.Sortable(s, scheme)
    ensures Vers.SemverLike(scheme) && Denotes(s, Parse(Vers.Canonical(s, scheme).0).value)
  {
    var l := TrimLeftRemoves(s);
    var r := TrimRightRemoves(Vers.TrimLeft(s));
    var text, w := Vers.TrimSpace(s), Vers.Canonical(s, scheme).0;
    assert s == l + text + r;
    var v := Parse(w).value;
    assert w == "v" + w[1..];
    TextsExactly(w[1..], v);
    SpellsSolid(w[1..], v);
    assert Writes(text, v);
  }

  /**
   Comparing two strings under an ordered scheme: 1 if the first denotes the version of higher
   precedence, -1 if the second does, 0 if they denote the same.
   */
  lemma CompareMeans(a: string, v: Version, b: string, w: Version, scheme: Api.Scheme)
    requires Vers.SemverLike(scheme) && Denotes(a, v) && Denotes(b, w)
    ensures Vers.CompareOK(a, b, scheme) == Some(if v == w then 0 else if Above(v, w) then 1 else -1)
  {
    DenotedIsRead(a, v, scheme);
    DenotedIsRead(b, w, scheme);
    PrecedenceMeans(v, w);
  }

  ghost predicate DenotesSome(s: string) { exists v :: Denotes(s, v) }

  /** Exactly what denotes a version is sortable, under exactly three schemes, and denotes only one. */
  lemma SortableMeans(s: string, scheme: Api.Scheme)
    ensures Vers.Sortable(s, scheme) <==>
      scheme in {Api.SchemeSemver, Api.SchemeLooseSemver, Api.SchemeUnspecified} && DenotesSome(s)
    ensures forall v, w :: Denotes(s, v) && Denotes(s, w) ==> v == w
  {
    if Vers.Sortable(s, scheme) { SortableDenotes(s, scheme); }
    forall v | Denotes(s, v)
      ensures Vers.Sortable(s, Api.SchemeSemver) && Parse(Vers.Canonical(s, Api.SchemeSemver).0) == Some(v)
    {
      DenotedIsRead(s, v, Api.SchemeSemver);
    }
    Vers.SchemesAgree(s, s, scheme);
  }

  /** Anything else has no place in the order, which Compare alone does not tell from being the same. */
  lemma IncomparableIsZero(a: string, b: string, scheme: Api.Scheme)
    requires !Vers.SemverLike(scheme) || !DenotesSome(a) || !DenotesSome(b)
    ensures Vers.CompareOK(a, b, scheme) == None && Vers.Compare(a, b, scheme) == 0
  {
    SortableMeans(a, scheme);
    SortableMeans(b, scheme);
  }

  ghost function Denoting(v: Version): Api.Version -> bool {
    (x: Api.Version) => Denotes(x.value, v)
  }

  /** For the order of versions, those that denote the same are equivalent to each other and to nothing else. */
  lemma ClassMeans(x: Api.Version, y: Api.Version, v: Version, scheme: Api.Scheme)
    requires Vers.SemverLike(scheme) && Denotes(x.value, v) && Vers.Sortable(y.value, scheme)
    ensures Vers.ByVersion(scheme)(x, y) && Vers.ByVersion(scheme)(y, x) <==> Denotes(y.value, v)
  {
    SortableMeans(x.value, scheme);
    SortableMeans(y.value, scheme);
    var w :| Denotes(y.value, w);
    CompareMeans(x.value, v, y.value, w, scheme);
    CompareMeans(y.value, w, x.value, v, scheme);
    PrecedenceMeans(v, w);
    PrecedenceMeans(w, v);
  }

  lemma SortedFrom(versions: seq<Api.Version>, scheme: Api.Scheme, sorted: seq<Api.Version>)
    requires StableArrangement(Vers.ByVersion(scheme), Vers.SortableOnly(versions, scheme), sorted)
    ensures TotalPreorder(Vers.ByVersion(scheme))
    ensures forall x :: x in sorted <==> x in versions && Vers.Sortable(x.value, scheme)
  {
    Vers.ByVersionPreorder(scheme);
    StablePermutes(Vers.ByVersion(scheme), Vers.SortableOnly(versions, scheme), sorted);
    FilterMembers((v: Api.Version) => Vers.Sortable(v.value, scheme), versions);
  }

  lemma SameDenoting(versions: seq<Api.Version>, scheme: Api.Scheme, sorted: seq<Api.Version>, x: Api.Version,
                     v: Version)
    requires Vers.SemverLike(scheme) && Denotes(x.value, v)
    requires StableArrangement(Vers.ByVersion(scheme), Vers.SortableOnly(versions, scheme), sorted)
    ensures Filter(Denoting(v), sorted) == Filter(Denoting(v), versions)
  {
    var le, sortable := Vers.ByVersion(scheme), Vers.SortableOnly(versions, scheme);
    var p := (y: Api.Version) => Vers.Sortable(y.value, scheme);
    SortedFrom(versions, scheme, sorted);
    FilterMembers(p, versions);
    forall y | y in sorted || y in sortable ensures Denoting(v)(y) <==> le(x, y) && le(y, x) {
      ClassMeans(x, y, v, scheme);
    }
    ClassSelects(le, Denoting(v), x, sortable, sorted);
    forall y | Denoting(v)(y) ensures p(y) { SortableMeans(y.value, scheme); }
    FilterNested(Denoting(v), p, versions);
  }

  /**
   What SortAscending leaves under an ordered scheme: only what denotes a version, never a higher one before a
   lower one, and of every version exactly the inputs that denote it, in the order they came in.
   */
  lemma AscendingMeans(versions: seq<Api.Version>, scheme: Api.Scheme, sorted: seq<Api.Version>)
    requires StableArrangement(Vers.ByVersion(scheme), Vers.SortableOnly(versions, scheme), sorted)
    requires Vers.SemverLike(scheme)
    ensures forall x :: x in sorted ==> DenotesSome(x.value)
    ensures forall i, j, v, w :: 0 <= i < j < |sorted| && Denotes(sorted[i].value, v) && Denotes(sorted[j].value, w) ==>
      !Above(v, w)
    ensures forall v :: Filter(Denoting(v), sorted) == Filter(Denoting(v), versions)
  {
    SortedFrom(versions, scheme, sorted);
    forall x | x in sorted ensures DenotesSome(x.value) { SortableMeans(x.value, scheme); }
    forall i, j, v, w | 0 <= i < j < |sorted| && Denotes(sorted[i].value, v) && Denotes(sorted[j].value, w)
      ensures !Above(v, w)
    {
      assert Vers.ByVersion(scheme)(sorted[i], sorted[j]) && sorted[i] in sorted;
      CompareMeans(sorted[i].value, v, sorted[j].value, w, scheme);
      PrecedenceMeans(v, w);
    }
    forall v ensures Filter(Denoting(v), sorted) == Filter(Denoting(v), versions) {
      if x: Api.Version :| x in versions && Denotes(x.value, v) {
        SameDenoting(versions, scheme, sorted, x, v);
      } else {
        FilterNone(Denoting(v), versions);
        FilterNone(Denoting(v), sorted);
      }
    }
  }
}
