/** Decimal numerals: strconv.Itoa and strconv.Atoi. */
module Decimal {
  import opened Wrappers

  predicate IsDigit(c: char) { '0' <= c <= '9' }

  function DigitOf(n: nat): char
    requires n < 10
  {
    ('0' as int + n) as char
  }

  function NatOf(s: string): nat {
    if s == [] then 0
    else 10 * NatOf(s[..|s| - 1]) + (if IsDigit(s[|s| - 1]) then s[|s| - 1] as nat - '0' as nat else 0)
  }

  function Itoa(n: nat): string {
    if n < 10 then [DigitOf(n)] else Itoa(n / 10) + [DigitOf(n % 10)]
  }

  /** Numerals read back as the number, and carry no leading zero. */
  lemma {:induction false} ItoaReadsBack(n: nat)
    ensures NatOf(Itoa(n)) == n && Itoa(n) != []
    ensures forall c :: c in Itoa(n) ==> IsDigit(c)
    ensures Itoa(n)[0] == '0' <==> n == 0
    ensures |Itoa(n)| == 1 <==> n < 10
  {
    if n >= 10 {
      ItoaReadsBack(n / 10);
      var t := Itoa(n / 10);
      assert (t + [DigitOf(n % 10)])[..|t|] == t;
    } else {
      assert NatOf([DigitOf(n)]) == 10 * NatOf([]) + n;
    }
  }

  lemma ItoaAppend(m: nat, digit: nat)
    requires m > 0 && digit < 10
    ensures Itoa(10 * m + digit) == Itoa(m) + [DigitOf(digit)]
  {
    var n := 10 * m + digit;
    assert n / 10 == m && n % 10 == digit;
  }

  lemma {:induction false} ItoaOfNat(d: string)
    requires d != "" && (forall c :: c in d ==> IsDigit(c)) && (d[0] == '0' ==> |d| == 1)
    ensures Itoa(NatOf(d)) == d
  {
    var front, last := d[..|d| - 1], d[|d| - 1];
    assert d == front + [last] && last in d;
    var digit := last as nat - '0' as nat;
    assert DigitOf(digit) == last;
    if front != "" {
      ItoaOfNat(front);
      ItoaReadsBack(NatOf(front));
      ItoaAppend(NatOf(front), digit);
    } else {
      assert NatOf(d) == 10 * NatOf("") + digit;
    }
  }

  const MAX_INT := 0x7fff_ffff_ffff_ffff

  /** strconv.Atoi: an optional sign and digits, within 64 bits. */
  function Atoi(s: string): Option<int> {
    var signed := s != [] && (s[0] == '-' || s[0] == '+');
    var digits := if signed then s[1..] else s;
    var value: int := NatOf(digits);
    if digits == [] || exists c :: c in digits && !IsDigit(c) then None
    else if signed && s[0] == '-' then (if value > MAX_INT + 1 then None else Some(-value))
    else if value > MAX_INT then None
    else Some(value)
  }

  lemma AtoiInvertsItoa(n: nat)
    requires n <= MAX_INT
    ensures Atoi(Itoa(n)) == Some(n) && Itoa(n) != ""
  {
    ItoaReadsBack(n);
    assert Itoa(n)[0] in Itoa(n);
  }

  ghost predicate Zeros(z: string) { forall c :: c in z ==> c == '0' }

  lemma {:induction false} ZerosFirst(z: string, d: string)
    requires Zeros(z)
    ensures NatOf(z + d) == NatOf(d)
  {
    if d != "" {
      ZerosFirst(z, d[..|d| - 1]);
      assert (z + d)[..|z + d| - 1] == z + d[..|d| - 1];
    } else if z != "" {
      assert z + d == z && z[|z| - 1] in z;
      var front := z[..|z| - 1];
      assert z == front + [z[|z| - 1]] && front + "" == front;
      assert Zeros(front) by { forall c | c in front ensures c in z {} }
      ZerosFirst(front, "");
    } else {
      assert z + d == d;
    }
  }

  lemma ZeroAhead(s: string, z: string)
    requires s == z + Itoa(NatOf(s))
    ensures "0" + s == ("0" + z) + Itoa(NatOf("0" + s))
  {
    ZerosFirst("0", s);
  }

  /** Every string of digits is a numeral behind zeros. */
  lemma {:induction false} DigitsAre(s: string) returns (z: string)
    requires s != "" && forall c :: c in s ==> IsDigit(c)
    ensures Zeros(z) && s == z + Itoa(NatOf(s))
  {
    if s[0] == '0' && |s| > 1 {
      var rest := s[1..];
      assert s == "0" + rest;
      z := DigitsAre(rest);
      ZeroAhead(rest, z);
      z := "0" + z;
    } else {
      ItoaOfNat(s);
      z := "";
    }
  }

  /** A number in 64 bits, written with a sign or without, and with leading zeros or without. */
  ghost predicate WritesInt(s: string, v: int, sign: string, z: string, n: nat) {
    && (sign == "" || sign == "+" || sign == "-") && Zeros(z) && s == sign + (z + Itoa(n))
    && v == (if sign == "-" then 0 - n else n) && -0x8000_0000_0000_0000 <= v <= 0x7fff_ffff_ffff_ffff
  }

  lemma AtoiReads(s: string, v: int, sign: string, z: string, n: nat)
    requires WritesInt(s, v, sign, z, n)
    ensures Atoi(s) == Some(v)
  {
    var digits := z + Itoa(n);
    ItoaReadsBack(n);
    ZerosFirst(z, Itoa(n));
    assert IsDigit(digits[0]) by { assert digits[0] in z || digits[0] in Itoa(n); }
    assert sign != "" ==> s[1..] == digits;
    assert sign == "" ==> s == digits;
  }

  /** Exactly such strings are read, as that number. */
  lemma AtoiMeans(s: string, v: int)
    ensures Atoi(s) == Some(v) <==> exists sign, z, n :: WritesInt(s, v, sign, z, n)
  {
    if sign, z, n :| WritesInt(s, v, sign, z, n) { AtoiReads(s, v, sign, z, n); }
    if Atoi(s) == Some(v) {
      var signed := s != "" && (s[0] == '-' || s[0] == '+');
      var sign, digits := if signed then s[..1] else "", if signed then s[1..] else s;
      var z := DigitsAre(digits);
      assert s == sign + digits;
      assert WritesInt(s, v, sign, z, NatOf(digits));
    }
  }
}
