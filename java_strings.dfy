/** The few pieces of java.lang that the controllers rely on: the natural order
    of strings (`String.compareTo`), decimal printing of integers
    (`String.valueOf(int)`), `Integer.parseInt`, and sorting a set of strings. */
module JavaStrings {
  import opened Wrappers

  // ---------------------------------------------------------------------
  // String.compareTo: lexicographic on characters, a proper prefix first.
  // ---------------------------------------------------------------------

  /** `a.compareTo(b) < 0`. */
  predicate Less(a: string, b: string)
    decreases |a|
  {
    if a == [] then b != []
    else if b == [] then false
    else if a[0] == b[0] then Less(a[1..], b[1..])
    else a[0] < b[0]
  }

  lemma {:induction false} LessIrreflexive(a: string)
    ensures !Less(a, a)
    decreases |a|
  {
    if a != [] {
      LessIrreflexive(a[1..]);
    }
  }

  lemma {:induction false} LessAsymmetric(a: string, b: string)
    requires Less(a, b)
    ensures !Less(b, a)
    decreases |a|
  {
    if a != [] && b != [] && a[0] == b[0] {
      LessAsymmetric(a[1..], b[1..]);
    }
  }

  lemma {:induction false} LessTransitive(a: string, b: string, c: string)
    requires Less(a, b) && Less(b, c)
    ensures Less(a, c)
    decreases |a|
  {
    if a != [] && a[0] == b[0] && b[0] == c[0] {
      LessTransitive(a[1..], b[1..], c[1..]);
    }
  }

  /** Any two different strings are ordered one way or the other. */
  lemma {:induction false} LessTotal(a: string, b: string)
    requires a != b
    ensures Less(a, b) || Less(b, a)
    decreases |a|
  {
    if a != [] && b != [] && a[0] == b[0] {
      assert a == [a[0]] + a[1..] && b == [b[0]] + b[1..];
      LessTotal(a[1..], b[1..]);
    }
  }

  /** A proper prefix comes first: the reason why a reverse-sorted listing of a
      directory tree names every entry before the directory holding it. */
  lemma {:induction false} PrefixLess(a: string, b: string)
    requires |a| < |b| && b[..|a|] == a
    ensures Less(a, b)
    decreases |a|
  {
    if a != [] {
      assert a[0] == b[0];
      assert b[1..][..|a| - 1] == a[1..];
      PrefixLess(a[1..], b[1..]);
    }
  }

  /** Strictly decreasing in the string order, hence also free of duplicates. */
  ghost predicate Descending(s: seq<string>) {
    forall i, j :: 0 <= i < j < |s| ==> Less(s[j], s[i])
  }

  /** The greatest element of a non-empty set of strings. */
  method MaxOf(s: set<string>) returns (m: string)
    requires s != {}
    ensures m in s
    ensures forall y :: y in s && y != m ==> Less(y, m)
  {
    m :| m in s;
    var todo := s - {m};
    while todo != {}
      invariant todo <= s && m in s && m !in todo
      invariant forall y :: y in s && y !in todo && y != m ==> Less(y, m)
      decreases todo
    {
      var y :| y in todo;
      if Less(m, y) {
        forall z | z in s && z !in todo && z != m
          ensures Less(z, y)
        {
          LessTransitive(z, m, y);
        }
        m := y;
      } else {
        LessTotal(m, y);
      }
      todo := todo - {y};
    }
  }

  /** `set.stream().sorted((a, b) -> b.compareTo(a))`: the elements of `s`,
      each once, greatest first. */
  method SortDescending(s: set<string>) returns (r: seq<string>)
    ensures forall x :: x in r <==> x in s
    ensures Descending(r)
    ensures |r| == |s|
  {
    r := [];
    var rest := s;
    while rest != {}
      invariant rest <= s
      invariant forall x :: x in r <==> x in s && x !in rest
      invariant Descending(r)
      invariant forall i, y :: 0 <= i < |r| && y in rest ==> Less(y, r[i])
      invariant |r| + |rest| == |s|
      decreases rest
    {
      var m := MaxOf(rest);
      forall i, y | 0 <= i < |r| && y in rest - {m}
        ensures Less(y, r[i])
      {
      }
      r := r + [m];
      rest := rest - {m};
    }
  }

  // ---------------------------------------------------------------------
  // String.valueOf(int) and Integer.parseInt
  // ---------------------------------------------------------------------

  const INT_MIN: int := -0x8000_0000
  const INT_MAX: int := 0x7FFF_FFFF

  predicate IsDigit(c: char) {
    '0' <= c <= '9'
  }

  function DigitChar(d: nat): (c: char)
    requires d < 10
    ensures IsDigit(c) && (c as int) - ('0' as int) == d
  {
    ['0', '1', '2', '3', '4', '5', '6', '7', '8', '9'][d]
  }

  /** Decimal digits of `n`, without leading zeros. */
  function NatToString(n: nat): (s: string)
    decreases n
  {
    if n < 10 then [DigitChar(n)] else NatToString(n / 10) + [DigitChar(n % 10)]
  }

  /** `String.valueOf(n)`: a minus sign for negative numbers, then the digits. */
  function IntToString(n: int): string {
    if n < 0 then "-" + NatToString(-n) else NatToString(n)
  }

  /** The number written by a string of decimal digits. */
  function DigitsValue(s: string): nat
    requires forall i :: 0 <= i < |s| ==> IsDigit(s[i])
    decreases |s|
  {
    if s == [] then 0
    else
      assert IsDigit(s[|s| - 1]);
      DigitsValue(s[..|s| - 1]) * 10 + ((s[|s| - 1] as int) - ('0' as int))
  }

  /** The part of `s` after an optional leading sign. */
  function UnsignedPart(s: string): (d: string)
    ensures |d| == |s| || (|s| > 0 && (s[0] == '-' || s[0] == '+') && d == s[1..])
  {
    if |s| > 0 && (s[0] == '-' || s[0] == '+') then s[1..] else s
  }

  /** `Integer.parseInt(s)` for ASCII input: an optional sign, at least one
      digit, and a value that fits in 32 bits; `None` where Java throws
      NumberFormatException. */
  function ParseInt(s: string): (r: Option<int>)
    ensures r.Some? ==> INT_MIN <= r.value <= INT_MAX
  {
    var digits := UnsignedPart(s);
    if digits == [] || !(forall i :: 0 <= i < |digits| ==> IsDigit(digits[i])) then None
    else
      var n: int := DigitsValue(digits);
      var v := if s[0] == '-' then -n else n;
      if INT_MIN <= v <= INT_MAX then Some(v) else None
  }

  /** A sign followed by digits parses to the signed value when it fits. */
  lemma ParseIntOfDigits(s: string)
    requires UnsignedPart(s) != [] && forall i :: 0 <= i < |UnsignedPart(s)| ==> IsDigit(UnsignedPart(s)[i])
    ensures var n: int := DigitsValue(UnsignedPart(s));
      var v := if s[0] == '-' then -n else n;
      ParseInt(s) == if INT_MIN <= v <= INT_MAX then Some(v) else None
  {
  }

  /** A run of digits, with or without a sign, parses to its value exactly
      when that value fits in 32 bits. */
  lemma ParseIntAccepts(d: string)
    requires d != "" && forall i :: 0 <= i < |d| ==> IsDigit(d[i])
    ensures DigitsValue(d) <= INT_MAX ==> ParseInt(d) == Some(DigitsValue(d))
    ensures DigitsValue(d) <= INT_MAX ==> ParseInt("+" + d) == Some(DigitsValue(d))
    ensures DigitsValue(d) > INT_MAX ==> ParseInt(d) == None && ParseInt("+" + d) == None
    ensures DigitsValue(d) <= -INT_MIN ==> ParseInt("-" + d) == Some(-(DigitsValue(d) as int))
    ensures DigitsValue(d) > -INT_MIN ==> ParseInt("-" + d) == None
  {
    assert IsDigit(d[0]);
    assert UnsignedPart(d) == d;
    ParseIntOfDigits(d);
    assert UnsignedPart("+" + d) == d;
    ParseIntOfDigits("+" + d);
    assert UnsignedPart("-" + d) == d;
    ParseIntOfDigits("-" + d);
  }

  /** No digits, or anything but a digit after the sign, is a
      NumberFormatException. */
  lemma ParseIntRejects(s: string)
    ensures ParseInt("") == None && ParseInt("-") == None && ParseInt("+") == None
    ensures (exists i :: 0 <= i < |UnsignedPart(s)| && !IsDigit(UnsignedPart(s)[i])) ==> ParseInt(s) == None
  {
    assert "-"[1..] == [] && "+"[1..] == [];
    if exists i :: 0 <= i < |UnsignedPart(s)| && !IsDigit(UnsignedPart(s)[i]) {
      var i :| 0 <= i < |UnsignedPart(s)| && !IsDigit(UnsignedPart(s)[i]);
      assert !(forall k :: 0 <= k < |UnsignedPart(s)| ==> IsDigit(UnsignedPart(s)[k]));
    }
  }

  lemma {:induction false} NatToStringDigits(n: nat)
    ensures |NatToString(n)| > 0
    ensures forall i :: 0 <= i < |NatToString(n)| ==> IsDigit(NatToString(n)[i])
    ensures DigitsValue(NatToString(n)) == n
    decreases n
  {
    if n >= 10 {
      NatToStringDigits(n / 10);
      var s := NatToString(n);
      assert s[..|s| - 1] == NatToString(n / 10);
    }
  }

  /** `Integer.parseInt(String.valueOf(n)) == n` for every 32-bit `n`. */
  lemma ParseIntOfIntToString(n: int)
    requires INT_MIN <= n <= INT_MAX
    ensures ParseInt(IntToString(n)) == Some(n)
  {
    var m: nat := if n < 0 then -n else n;
    NatToStringDigits(m);
    ParseIntAccepts(NatToString(m));
    assert IntToString(n) == if n < 0 then "-" + NatToString(m) else NatToString(m);
  }

  /** Different numbers print differently. */
  lemma IntToStringInjective(a: int, b: int)
    requires IntToString(a) == IntToString(b)
    ensures a == b
  {
    NatToStringDigits(if a < 0 then -a else a);
    NatToStringDigits(if b < 0 then -b else b);
    if a < 0 {
      assert IntToString(a)[1..] == NatToString(-a);
    } else {
      assert IsDigit(IntToString(a)[0]);
    }
    if b < 0 {
      assert IntToString(b)[1..] == NatToString(-b);
    } else {
      assert IsDigit(IntToString(b)[0]);
    }
  }
}
