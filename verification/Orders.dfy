/**
 Stable sorting with respect to a total preorder.

 A stable arrangement is characterised without mentioning any algorithm: it is ordered,
 and within every class of equivalent elements it lists exactly the original elements in
 their original order. There is exactly one such arrangement, so code that sorts with the
 same comparison always produces the same sequence.
 */
module Orders {
  ghost predicate TotalPreorder<T(!new)>(le: (T, T) -> bool) {
    && (forall x, y :: le(x, y) || le(y, x))
    && (forall x, y, z :: le(x, y) && le(y, z) ==> le(x, z))
  }

  ghost predicate Ordered<T>(le: (T, T) -> bool, s: seq<T>) {
    forall i, j :: 0 <= i < j < |s| ==> le(s[i], s[j])
  }

  function Filter<T>(p: T -> bool, s: seq<T>): seq<T> {
    if s == [] then [] else (if p(s[0]) then [s[0]] else []) + Filter(p, s[1..])
  }

  /** The elements of s equivalent to x, in the order of s. */
  ghost function Class<T>(le: (T, T) -> bool, x: T, s: seq<T>): seq<T> {
    Filter(y => le(x, y) && le(y, x), s)
  }

  ghost predicate SameClasses<T(!new)>(le: (T, T) -> bool, s: seq<T>, t: seq<T>) {
    forall x :: Class(le, x, s) == Class(le, x, t)
  }

  ghost predicate StableArrangement<T(!new)>(le: (T, T) -> bool, s: seq<T>, t: seq<T>) {
    Ordered(le, t) && SameClasses(le, s, t)
  }

  lemma {:induction false} FilterConcat<T>(p: T -> bool, s: seq<T>, t: seq<T>)
    ensures Filter(p, s + t) == Filter(p, s) + Filter(p, t)
  {
    if s == [] {
      assert s + t == t;
    } else {
      var head, rest := s[0], s[1..];
      assert (s + t)[1..] == rest + t;
      FilterConcat(p, rest, t);
      var one := if p(head) then [head] else [];
      assert Filter(p, s + t) == one + (Filter(p, rest) + Filter(p, t));
      assert Filter(p, s) == one + Filter(p, rest);
    }
  }

  /** What one more round of a selecting loop adds. */
  lemma FilterStep<T>(p: T -> bool, s: seq<T>, i: nat)
    requires i < |s|
    ensures Filter(p, s[..i + 1]) == Filter(p, s[..i]) + (if p(s[i]) then [s[i]] else [])
  {
    assert s[..i + 1] == s[..i] + [s[i]];
    FilterConcat(p, s[..i], [s[i]]);
  }

  lemma {:induction false} FilterCount<T>(p: T -> bool, s: seq<T>, x: T)
    ensures multiset(Filter(p, s))[x] == if p(x) then multiset(s)[x] else 0
  {
    if s != [] {
      FilterCount(p, s[1..], x);
      assert s == [s[0]] + s[1..];
    }
  }

  lemma {:induction false} FilterMembers<T>(p: T -> bool, s: seq<T>)
    ensures |Filter(p, s)| <= |s|
    ensures forall x :: x in Filter(p, s) <==> x in s && p(x)
  {
    if s != [] {
      FilterMembers(p, s[1..]);
      assert s == [s[0]] + s[1..];
    }
  }

  lemma SameBagSameLength<T>(s: seq<T>, t: seq<T>)
    requires multiset(s) == multiset(t)
    ensures |s| == |t|
  {
    assert |s| == |multiset(s)| && |t| == |multiset(t)|;
  }

  lemma SameCountsSameLength<T>(a: seq<T>, b: seq<T>)
    requires forall x :: multiset(a)[x] == multiset(b)[x]
    ensures |a| == |b|
  {
    assert multiset(a) == multiset(b);
    SameBagSameLength(a, b);
  }

  lemma FilterPermuted<T>(p: T -> bool, s: seq<T>, t: seq<T>)
    requires multiset(s) == multiset(t)
    ensures |Filter(p, s)| == |Filter(p, t)|
  {
    forall x ensures multiset(Filter(p, s))[x] == multiset(Filter(p, t))[x] {
      FilterCount(p, s, x);
      FilterCount(p, t, x);
    }
    SameCountsSameLength(Filter(p, s), Filter(p, t));
  }

  /** Two predicates that agree on the elements of s select the same elements. */
  lemma {:induction false} FilterAgree<T>(p: T -> bool, q: T -> bool, s: seq<T>)
    requires forall x :: x in s ==> p(x) == q(x)
    ensures Filter(p, s) == Filter(q, s)
  {
    if s != [] {
      FilterAgree(p, q, s[1..]);
    }
  }

  /** A condition that holds for exactly one class selects the same from two lists with the same classes. */
  lemma ClassSelects<T(!new)>(le: (T, T) -> bool, p: T -> bool, x: T, s: seq<T>, t: seq<T>)
    requires SameClasses(le, s, t)
    requires forall y :: y in s || y in t ==> (p(y) <==> le(x, y) && le(y, x))
    ensures Filter(p, s) == Filter(p, t)
  {
    var q := y => le(x, y) && le(y, x);
    FilterAgree(p, q, s);
    FilterAgree(p, q, t);
    assert Class(le, x, s) == Class(le, x, t);
  }

  /** Selecting twice is selecting once when the second selection implies the first. */
  lemma {:induction false} FilterNested<T>(p: T -> bool, q: T -> bool, s: seq<T>)
    requires forall x :: p(x) ==> q(x)
    ensures Filter(p, Filter(q, s)) == Filter(p, s)
  {
    if s != [] {
      FilterNested(p, q, s[1..]);
      FilterConcat(p, if q(s[0]) then [s[0]] else [], Filter(q, s[1..]));
      assert Filter(p, [s[0]]) == if p(s[0]) then [s[0]] else [];
    }
  }

  lemma {:induction false} FilterAll<T>(p: T -> bool, s: seq<T>)
    requires forall i :: 0 <= i < |s| ==> p(s[i])
    ensures Filter(p, s) == s
  {
    if s != [] {
      FilterAll(p, s[1..]);
      assert s == [s[0]] + s[1..];
    }
  }

  /** Selecting with a condition that never fails again once it holds takes a tail. */
  lemma {:induction false} FilterIsSuffix<T>(p: T -> bool, s: seq<T>)
    requires forall i, j :: 0 <= i < j < |s| && p(s[i]) ==> p(s[j])
    ensures |Filter(p, s)| <= |s|
    ensures var k := |s| - |Filter(p, s)|; Filter(p, s) == s[k..] && forall i :: 0 <= i < |s| ==> (p(s[i]) <==> i >= k)
  {
    if s != [] {
      if p(s[0]) {
        FilterAll(p, s);
      } else {
        var rest := s[1..];
        FilterIsSuffix(p, rest);
        assert forall i :: 1 <= i < |s| ==> s[i] == rest[i - 1];
      }
    }
  }

  lemma FilterLast<T>(p: T -> bool, a: seq<T>, y: T)
    ensures Filter(p, a + [y]) == if p(y) then Filter(p, a) + [y] else Filter(p, a)
  {
    FilterConcat(p, a, [y]);
  }

  /** Selecting with a condition that fails for one element leaves that out. */
  lemma FilterAllBut<T>(p: T -> bool, a: seq<T>, y: T, c: seq<T>)
    requires !p(y) && (forall x :: x in a ==> p(x)) && (forall x :: x in c ==> p(x))
    ensures Filter(p, a + [y] + c) == a + c
  {
    FilterAll(p, a);
    FilterAll(p, c);
    FilterConcat(p, a + [y], c);
    FilterLast(p, a, y);
  }

  lemma SplitAt<T>(s: seq<T>, i: nat)
    requires i < |s|
    ensures s[..i] + [s[i]] + s[i + 1..] == s
  {
  }

  lemma {:induction false} FilterNone<T>(p: T -> bool, s: seq<T>)
    requires forall x :: x in s ==> !p(x)
    ensures Filter(p, s) == []
  {
    if s != [] {
      FilterNone(p, s[1..]);
    }
  }

  /** An element may move behind those that are not selected with it. */
  lemma FilterMoveLast<T>(p: T -> bool, s: seq<T>, x: T, t: seq<T>)
    requires p(x) ==> forall q :: q in t ==> !p(q)
    ensures Filter(p, s + [x] + t) == Filter(p, s + t + [x])
  {
    FilterConcat(p, s + [x], t);
    FilterConcat(p, s, [x]);
    FilterConcat(p, s + t, [x]);
    FilterConcat(p, s, t);
    if p(x) {
      FilterNone(p, t);
    } else {
      assert Filter(p, [x]) == [];
    }
  }

  lemma {:induction false} FilterFilter<T>(p: T -> bool, q: T -> bool, s: seq<T>)
    ensures Filter(p, Filter(q, s)) == Filter(x => p(x) && q(x), s)
  {
    if s != [] {
      FilterFilter(p, q, s[1..]);
      FilterConcat(p, if q(s[0]) then [s[0]] else [], Filter(q, s[1..]));
      assert Filter(p, [s[0]]) == if p(s[0]) then [s[0]] else [];
    }
  }

  /** A stable arrangement is a permutation. */
  lemma StablePermutes<T(!new)>(le: (T, T) -> bool, s: seq<T>, t: seq<T>)
    requires TotalPreorder(le) && SameClasses(le, s, t)
    ensures multiset(s) == multiset(t) && |s| == |t|
    ensures forall x :: x in s <==> x in t
  {
    forall x ensures multiset(s)[x] == multiset(t)[x] {
      FilterCount(y => le(x, y) && le(y, x), s, x);
      FilterCount(y => le(x, y) && le(y, x), t, x);
      assert Class(le, x, s) == Class(le, x, t);
    }
    SameBagSameLength(s, t);
    forall x ensures x in s <==> x in t {
      assert x in multiset(s) <==> x in multiset(t);
    }
  }

  lemma {:induction false} StableUnique<T(!new)>(le: (T, T) -> bool, s: seq<T>, t: seq<T>)
    requires TotalPreorder(le) && Ordered(le, s) && Ordered(le, t) && SameClasses(le, s, t)
    ensures s == t
  {
    StablePermutes(le, s, t);
    if s != [] {
      var x := s[0];
      assert x in t && t[0] in s;
      assert le(x, t[0]) && le(t[0], x);
      assert Class(le, x, s)[0] == x && Class(le, x, t)[0] == t[0];
      forall y ensures Class(le, y, s[1..]) == Class(le, y, t[1..]) {
        var k := if le(y, x) && le(x, y) then 1 else 0;
        assert Class(le, y, s)[k..] == Class(le, y, s[1..]);
        assert Class(le, y, t)[k..] == Class(le, y, t[1..]);
        assert Class(le, y, s) == Class(le, y, t);
      }
      StableUnique(le, s[1..], t[1..]);
      assert s == [x] + s[1..] && t == [x] + t[1..];
    }
  }

  /** Exchanging two adjacent elements that are strictly out of order disturbs no class. */
  lemma SwapKeepsClasses<T(!new)>(le: (T, T) -> bool, s: seq<T>, j: nat)
    requires TotalPreorder(le) && 0 < j < |s| && !le(s[j - 1], s[j])
    ensures SameClasses(le, s, s[j - 1 := s[j]][j := s[j - 1]])
  {
    var t := s[j - 1 := s[j]][j := s[j - 1]];
    var a, b, c := s[..j - 1], [s[j - 1]], [s[j]];
    var d := s[j + 1..];
    assert s == a + (b + (c + d)) && t == a + (c + (b + d));
    forall x ensures Class(le, x, s) == Class(le, x, t) {
      var p := y => le(x, y) && le(y, x);
      FilterConcat(p, a, b + (c + d)); FilterConcat(p, b, c + d); FilterConcat(p, c, d);
      FilterConcat(p, a, c + (b + d)); FilterConcat(p, c, b + d); FilterConcat(p, b, d);
      assert Filter(p, b) == [] || Filter(p, c) == [];
    }
  }

  lemma MoveBehind<T(!new)>(le: (T, T) -> bool, front: seq<T>, last: T, x: T, inner: seq<T>)
    requires TotalPreorder(le) && !le(last, x) && SameClasses(le, front + [x], inner)
    ensures SameClasses(le, (front + [last]) + [x], inner + [last])
  {
    forall y ensures Class(le, y, (front + [last]) + [x]) == Class(le, y, inner + [last]) {
      var p := z => le(y, z) && le(z, y);
      FilterConcat(p, front + [last], [x]); FilterConcat(p, front, [last]);
      FilterConcat(p, front, [x]); FilterConcat(p, inner, [last]);
      assert Class(le, y, front + [x]) == Class(le, y, inner);
      assert Filter(p, [last]) == [] || Filter(p, [x]) == [];
    }
  }

  /** Inserts x behind every element that does not sort after it. */
  ghost function InsertLast<T(!new)>(le: (T, T) -> bool, t: seq<T>, x: T): (r: seq<T>)
    requires TotalPreorder(le) && Ordered(le, t)
    ensures Ordered(le, r) && SameClasses(le, t + [x], r)
    ensures forall y :: y in r ==> y == x || y in t
  {
    if t == [] || le(t[|t| - 1], x) then t + [x] else
      var front, last := t[..|t| - 1], t[|t| - 1];
      var inner := InsertLast(le, front, x);
      assert SameClasses(le, t + [x], inner + [last]) by {
        assert t == front + [last];
        MoveBehind(le, front, last, x, inner);
      }
      assert Ordered(le, inner + [last]) by {
        assert forall y :: y in inner ==> le(y, last);
      }
      inner + [last]
  }

  /** The stable arrangement of s as a function; its contract determines it. */
  ghost function Arrange<T(!new)>(le: (T, T) -> bool, s: seq<T>): (t: seq<T>)
    requires TotalPreorder(le)
    ensures StableArrangement(le, s, t)
  {
    if s == [] then [] else
      var front := s[..|s| - 1];
      var t := InsertLast(le, Arrange(le, front), s[|s| - 1]);
      assert StableArrangement(le, s, t) by {
        assert s == front + [s[|s| - 1]];
        forall x ensures Class(le, x, s) == Class(le, x, t) {
          var p := y => le(x, y) && le(y, x);
          FilterConcat(p, front, [s[|s| - 1]]);
          FilterConcat(p, Arrange(le, front), [s[|s| - 1]]);
          assert Class(le, x, front) == Class(le, x, Arrange(le, front));
          assert Class(le, x, t) == Class(le, x, Arrange(le, front) + [s[|s| - 1]]);
        }
      }
      t
  }

  /** Where InsertLast puts x. */
  ghost function InsertAt<T(!new)>(le: (T, T) -> bool, t: seq<T>, x: T): (k: nat)
    ensures k <= |t| && (k > 0 ==> le(t[k - 1], x))
  {
    if t == [] || le(t[|t| - 1], x) then |t| else InsertAt(le, t[..|t| - 1], x)
  }

  lemma {:induction false} InsertLastAt<T(!new)>(le: (T, T) -> bool, t: seq<T>, x: T)
    requires TotalPreorder(le) && Ordered(le, t)
    ensures var k := InsertAt(le, t, x);
      && InsertLast(le, t, x) == t[..k] + [x] + t[k..]
      && forall i :: k <= i < |t| ==> !le(t[i], x)
  {
    if t != [] && !le(t[|t| - 1], x) {
      var front, last := t[..|t| - 1], t[|t| - 1];
      var k := InsertAt(le, front, x);
      InsertLastAt(le, front, x);
      assert InsertLast(le, t, x) == front[..k] + [x] + front[k..] + [last];
      assert t[..k] == front[..k] && t[k..] == front[k..] + [last];
    }
  }

  lemma ArrangeUnique<T(!new)>(le: (T, T) -> bool, s: seq<T>, t: seq<T>)
    requires TotalPreorder(le) && StableArrangement(le, s, t)
    ensures t == Arrange(le, s)
  {
    forall x ensures Class(le, x, t) == Class(le, x, Arrange(le, s)) {
      assert Class(le, x, s) == Class(le, x, t);
      assert Class(le, x, s) == Class(le, x, Arrange(le, s));
    }
    StableUnique(le, t, Arrange(le, s));
  }

  /** An element without ties behind it is arranged as if it stood last. */
  lemma ArrangeInsert<T(!new)>(le: (T, T) -> bool, s: seq<T>, x: T, t: seq<T>)
    requires TotalPreorder(le)
    requires forall q :: q in t ==> !(le(x, q) && le(q, x))
    ensures Arrange(le, s + [x] + t) == InsertLast(le, Arrange(le, s + t), x)
  {
    var before := Arrange(le, s + t);
    var after := InsertLast(le, before, x);
    forall y ensures Class(le, y, s + [x] + t) == Class(le, y, after) {
      var p := z => le(y, z) && le(z, y);
      assert p(x) ==> forall q :: q in t ==> !p(q);
      FilterMoveLast(p, s, x, t);
      FilterConcat(p, s + t, [x]);
      FilterConcat(p, before, [x]);
      assert Class(le, y, s + t) == Class(le, y, before);
      assert Class(le, y, before + [x]) == Class(le, y, after);
    }
    ArrangeUnique(le, s + [x] + t, after);
  }

  /** p does not tell equivalent elements apart. */
  ghost predicate Respects<T(!new)>(le: (T, T) -> bool, p: T -> bool) {
    forall x, y :: le(x, y) && le(y, x) && p(x) ==> p(y)
  }

  /** Such a predicate selects a class wholly or not at all. */
  lemma ClassOfFilter<T(!new)>(le: (T, T) -> bool, p: T -> bool, x: T, s: seq<T>)
    requires Respects(le, p)
    ensures Class(le, x, Filter(p, s)) == if p(x) then Class(le, x, s) else []
  {
    var same := y => le(x, y) && le(y, x);
    var both := y => same(y) && p(y);
    FilterFilter(same, p, s);
    assert Filter(both, s) == Filter(y => same(y) && p(y), s) by { FilterAgree(both, y => same(y) && p(y), s); }
    if p(x) {
      FilterAgree(both, same, s);
    } else {
      FilterNone(both, s);
    }
  }

  /** Sorting two adjoining ranges one after the other is sorting their union. */
  lemma RangesConcat<T(!new)>(le: (T, T) -> bool, s: seq<T>, p: T -> bool, q: T -> bool, r: T -> bool,
                              tp: seq<T>, tq: seq<T>, tr: seq<T>)
    requires TotalPreorder(le) && Respects(le, p) && Respects(le, q) && Respects(le, r)
    requires forall x :: r(x) <==> p(x) || q(x)
    requires forall x :: !(p(x) && q(x))
    requires forall x, y :: p(x) && q(y) ==> le(x, y)
    requires StableArrangement(le, Filter(p, s), tp) && StableArrangement(le, Filter(q, s), tq)
    requires StableArrangement(le, Filter(r, s), tr)
    ensures tr == tp + tq
  {
    StablePermutes(le, Filter(p, s), tp);
    StablePermutes(le, Filter(q, s), tq);
    FilterMembers(p, s);
    FilterMembers(q, s);
    forall i, j | 0 <= i < j < |tp + tq| ensures le((tp + tq)[i], (tp + tq)[j]) {
      if i < |tp| <= j { assert tp[i] in tp && tq[j - |tp|] in tq; }
    }
    forall x ensures Class(le, x, tr) == Class(le, x, tp + tq) {
      FilterConcat(y => le(x, y) && le(y, x), tp, tq);
      assert Class(le, x, Filter(p, s)) == Class(le, x, tp);
      assert Class(le, x, Filter(q, s)) == Class(le, x, tq);
      assert Class(le, x, Filter(r, s)) == Class(le, x, tr);
      ClassOfFilter(le, p, x, s);
      ClassOfFilter(le, q, x, s);
      ClassOfFilter(le, r, x, s);
    }
    StableUnique(le, tr, tp + tq);
  }

  /** sort.SliceStable: the in-place insertion phase. `less` is the caller's comparison;
      it must be the strict part of a total preorder on the elements it is given. */
  method SliceStable<T(!new)>(a: array<T>, less: (T, T) -> bool, ghost le: (T, T) -> bool)
    requires TotalPreorder(le)
    requires forall x, y :: x in a[..] && y in a[..] ==> (less(x, y) <==> !le(y, x))
    modifies a
    ensures StableArrangement(le, old(a[..]), a[..])
  {
    var i := 0;
    while i < a.Length
      invariant 0 <= i <= a.Length
      invariant Ordered(le, a[..i])
      invariant SameClasses(le, old(a[..]), a[..])
    {
      var j := i;
      while j > 0 && less(a[j], a[j - 1])
        invariant 0 <= j <= i < a.Length
        invariant SameClasses(le, old(a[..]), a[..])
        invariant forall k, l :: 0 <= k < l <= i && l != j ==> le(a[k], a[l])
      {
        StablePermutes(le, old(a[..]), a[..]);
        assert a[j] in a[..] && a[j - 1] in a[..];
        SwapKeepsClasses(le, a[..], j);
        ghost var s := a[..];
        a[j], a[j - 1] := a[j - 1], a[j];
        assert a[..] == s[j - 1 := s[j]][j := s[j - 1]];
        j := j - 1;
      }
      StablePermutes(le, old(a[..]), a[..]);
      assert j > 0 ==> a[j] in a[..] && a[j - 1] in a[..];
      i := i + 1;
    }
    assert a[..i] == a[..];
  }

  /** The same on a slice held as a value: sort.SliceStable reorders its backing array. */
  method SortSlice<T(!new)>(s: seq<T>, less: (T, T) -> bool, ghost le: (T, T) -> bool) returns (t: seq<T>)
    requires TotalPreorder(le)
    requires forall x, y :: x in s && y in s ==> (less(x, y) <==> !le(y, x))
    ensures StableArrangement(le, s, t)
  {
    var a := new T[|s|](k requires 0 <= k < |s| => s[k]);
    assert a[..] == s;
    SliceStable(a, less, le);
    t := a[..];
  }
}
