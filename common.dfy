/**
 * Small building blocks shared by the pipeline model: optional values, results with an
 * error text, the decimal rendering of integers that PostgreSQL's `||` and Python's
 * f-strings produce, and PostgreSQL's ROUND(numeric, places) on exact rationals.
 */
module Common {

  /** A nullable column or a missing dictionary key. */
  datatype Option<+T> = None | Some(value: T)

  /** The outcome of a step that may raise: the value, or the exception's message. */
  datatype Result<+T> = Success(value: T) | Failure(error: string)

  predicate IsDigit(c: char) {
    '0' <= c <= '9'
  }

  function DigitChar(d: nat): (c: char)
    requires d < 10
    ensures IsDigit(c) && c as int - '0' as int == d
  {
    ('0' as int + d) as char
  }

  function DigitValue(c: char): (d: nat)
    requires IsDigit(c)
    ensures d < 10
  {
    c as int - '0' as int
  }

  /** Decimal text of a natural number, without leading zeros. */
  function NatToString(n: nat): (s: string)
    ensures |s| >= 1
    decreases n
  {
    if n < 10 then [DigitChar(n)] else NatToString(n / 10) + [DigitChar(n % 10)]
  }

  /** Decimal text of an integer: a leading '-' for negative values. */
  function IntToString(i: int): (s: string)
    ensures |s| >= 1
    ensures i >= 0 ==> s == NatToString(i)
    ensures i < 0 ==> s[0] == '-' && s[1..] == NatToString(-i)
  {
    if i >= 0 then NatToString(i) else "-" + NatToString(-i)
  }

  /** The value of a string of decimal digits (a reference reading of NatToString). */
  function DigitsValue(s: string): nat
    requires forall i :: 0 <= i < |s| ==> IsDigit(s[i])
  {
    if |s| == 0 then 0 else DigitsValue(s[..|s| - 1]) * 10 + DigitValue(s[|s| - 1])
  }

  /**
   * The decimal text of n is all digits, starts with '0' only for zero itself, and reads
   * back as n.
   */
  lemma {:induction false} NatToStringRoundTrip(n: nat)
    ensures forall i :: 0 <= i < |NatToString(n)| ==> IsDigit(NatToString(n)[i])
    ensures NatToString(n)[0] == '0' ==> n == 0
    ensures DigitsValue(NatToString(n)) == n
    decreases n
  {
    var s := NatToString(n);
    if n >= 10 {
      NatToStringRoundTrip(n / 10);
      assert s == NatToString(n / 10) + [DigitChar(n % 10)];
      assert s[..|s| - 1] == NatToString(n / 10);
    }
  }

  /** Distinct naturals have distinct decimal texts. */
  lemma NatToStringInjective(m: nat, n: nat)
    requires NatToString(m) == NatToString(n)
    ensures m == n
  {
    NatToStringRoundTrip(m);
    NatToStringRoundTrip(n);
  }

  function Pow10(k: nat): (p: nat)
    ensures p >= 1
  {
    if k == 0 then 1 else 10 * Pow10(k - 1)
  }

  /** 10^places, as a real. */
  function Scale(places: nat): (r: real)
    ensures r >= 1.0
  {
    Pow10(places) as real
  }

  /** Rounds a non-negative value half up to a multiple of 1 / scale. */
  function RoundUpHalf(y: real, scale: real): real
    requires scale > 0.0
  {
    ((y * scale + 0.5).Floor as real) / scale
  }

  /**
   * PostgreSQL ROUND(numeric, places): to the nearest multiple of 10^-places,
   * halves away from zero.
   */
  function RoundTo(x: real, places: nat): real {
    if x >= 0.0 then RoundUpHalf(x, Scale(places)) else -RoundUpHalf(-x, Scale(places))
  }

  lemma DivideByPositive(a: real, b: real, s: real)
    requires a <= b && s > 0.0
    ensures a / s <= b / s
  {
    assert b / s - a / s == (b - a) / s;
  }

  lemma ShiftThenDivide(a: real, b: real, s: real)
    requires s > 0.0
    ensures (a - b * s) / s == a / s - b
  {
  }

  lemma RoundUpHalfError(y: real, scale: real)
    requires scale > 0.0
    ensures -0.5 / scale <= RoundUpHalf(y, scale) - y <= 0.5 / scale
  {
    var g := y * scale + 0.5;
    var f := g.Floor as real;
    assert g - 1.0 < f <= g;
    var d := f - y * scale;
    assert -0.5 <= d <= 0.5;
    DivideByPositive(-0.5, d, scale);
    DivideByPositive(d, 0.5, scale);
    ShiftThenDivide(f, y, scale);
    assert RoundUpHalf(y, scale) - y == d / scale;
  }

  /** ROUND moves a value by at most half a unit of the last kept place. */
  lemma RoundToError(x: real, places: nat)
    ensures -0.5 / Scale(places) <= RoundTo(x, places) - x <= 0.5 / Scale(places)
  {
    if x >= 0.0 {
      RoundUpHalfError(x, Scale(places));
    } else {
      RoundUpHalfError(-x, Scale(places));
    }
  }

  /** Halves go away from zero. */
  lemma RoundToIsSymmetric(x: real, places: nat)
    ensures RoundTo(-x, places) == -RoundTo(x, places)
  {
    if x == 0.0 {
      assert -x == 0.0;
    }
  }

  /** A value in [0, 1] stays in [0, 1] when rounded. */
  lemma RoundToUnitInterval(x: real, places: nat)
    requires 0.0 <= x <= 1.0
    ensures 0.0 <= RoundTo(x, places) <= 1.0
  {
    UnitRoundUpHalf(x, Pow10(places));
  }

  lemma UnitRoundUpHalf(x: real, k: nat)
    requires 0.0 <= x <= 1.0 && k >= 1
    ensures 0.0 <= RoundUpHalf(x, k as real) <= 1.0
  {
    var s := k as real;
    RoundUpHalfUnfold(x, s);
    MulUnit(x, s);
    var f := (x * s + 0.5).Floor;
    assert 0 <= f <= k;
    DivideByPositive(0.0, f as real, s);
    DivideByPositive(f as real, s, s);
  }

  lemma RoundUpHalfUnfold(y: real, scale: real)
    requires scale > 0.0
    ensures RoundUpHalf(y, scale) == ((y * scale + 0.5).Floor as real) / scale
  {
  }

  lemma MulUnit(x: real, s: real)
    requires 0.0 <= x <= 1.0 && s >= 0.0
    ensures 0.0 <= x * s <= s
  {
    assert s - x * s == (1.0 - x) * s;
  }

  function Min(a: int, b: int): int {
    if a <= b then a else b
  }

  /** The elements of s satisfying p, in their order. */
  function Filter<T>(s: seq<T>, p: T -> bool): seq<T> {
    if s == [] then [] else (if p(s[0]) then [s[0]] else []) + Filter(s[1..], p)
  }

  /** x is kept by the filter exactly when it occurs in s and satisfies p. */
  lemma {:induction false} FilterMembers<T>(s: seq<T>, p: T -> bool, x: T)
    ensures x in Filter(s, p) <==> x in s && p(x)
    decreases |s|
  {
    if s != [] {
      FilterMembers(s[1..], p, x);
      assert s == [s[0]] + s[1..];
    }
  }

  /** Filtering distributes over concatenation. */
  lemma {:induction false} FilterAppend<T>(a: seq<T>, b: seq<T>, p: T -> bool)
    ensures Filter(a + b, p) == Filter(a, p) + Filter(b, p)
    decreases |a|
  {
    if a == [] {
      assert a + b == b;
    } else {
      var c := a + b;
      var head := if p(a[0]) then [a[0]] else [];
      assert c[0] == a[0] && c[1..] == a[1..] + b;
      assert Filter(c, p) == head + Filter(a[1..] + b, p);
      FilterAppend(a[1..], b, p);
      assert Filter(a, p) == head + Filter(a[1..], p);
    }
  }

  /**
   * An element of s that satisfies p sits in Filter(s, p) at the position given by the
   * number of kept elements up to and including it.
   */
  lemma FilterPosition<T>(s: seq<T>, k: nat, p: T -> bool)
    requires k < |s| && p(s[k])
    ensures var n := |Filter(s[..k + 1], p)|;
      && 1 <= n <= |Filter(s, p)|
      && Filter(s, p)[n - 1] == s[k]
      && Filter(s, p)[..n] == Filter(s[..k + 1], p)
  {
    var pre, rest := s[..k + 1], s[k + 1..];
    assert s == pre + rest;
    FilterAppend(pre, rest, p);
    assert pre == s[..k] + [s[k]];
    FilterAppend(s[..k], [s[k]], p);
    assert Filter([s[k]], p) == [s[k]] + Filter([s[k]][1..], p);
  }

  /**
   * When more elements of s satisfy p than those up to position k, the next one sits at a
   * later position of s.
   */
  lemma FilterNext<T>(s: seq<T>, k: nat, p: T -> bool) returns (j: nat)
    requires k < |s|
    requires |Filter(s[..k + 1], p)| < |Filter(s, p)|
    ensures k < j < |s| && p(s[j])
    ensures s[j] == Filter(s, p)[|Filter(s[..k + 1], p)|]
  {
    var pre, rest := s[..k + 1], s[k + 1..];
    assert s == pre + rest;
    FilterAppend(pre, rest, p);
    var x := Filter(rest, p)[0];
    assert Filter(s, p)[|Filter(pre, p)|] == x;
    FilterMembers(rest, p, x);
    var i :| 0 <= i < |rest| && rest[i] == x;
    j := k + 1 + i;
  }

  /** The keys never decrease along s. */
  predicate SortedBy<T>(s: seq<T>, key: T -> int) {
    forall i, j :: 0 <= i < j < |s| ==> key(s[i]) <= key(s[j])
  }
  /** Inserts x before the first element whose key is not smaller than x's. */
  function InsertBy<T>(x: T, s: seq<T>, key: T -> int): seq<T> {
    if s == [] || key(x) <= key(s[0]) then [x] + s else [s[0]] + InsertBy(x, s[1..], key)
  }
  lemma {:induction false} InsertByMultiset<T>(x: T, s: seq<T>, key: T -> int)
    ensures multiset(InsertBy(x, s, key)) == multiset(s) + multiset{x}
    decreases |s|
  {
    if s != [] && key(x) > key(s[0]) {
      assert s == [s[0]] + s[1..];
      InsertByMultiset(x, s[1..], key);
    }
  }
  lemma {:induction false} InsertBySorted<T>(x: T, s: seq<T>, key: T -> int)
    requires SortedBy(s, key)
    ensures SortedBy(InsertBy(x, s, key), key)
    decreases |s|
  {
    if s != [] && key(x) > key(s[0]) {
      var tail := s[1..];
      InsertBySorted(x, tail, key);
      forall m | 0 <= m < |tail| ensures key(tail[m]) >= key(s[0]) {
        assert tail[m] == s[m + 1];
      }
      InsertByBound(x, tail, key, key(s[0]));
      SortedCons(s[0], InsertBy(x, tail, key), key);
    }
  }

  /** Inserting an element no smaller than a bound into a list no smaller than it keeps the bound. */
  lemma {:induction false} InsertByBound<T>(x: T, s: seq<T>, key: T -> int, b: int)
    requires key(x) >= b
    requires forall k :: 0 <= k < |s| ==> key(s[k]) >= b
    ensures forall k :: 0 <= k < |InsertBy(x, s, key)| ==> key(InsertBy(x, s, key)[k]) >= b
    decreases |s|
  {
    var r := InsertBy(x, s, key);
    if s != [] && key(x) > key(s[0]) {
      var rest := InsertBy(x, s[1..], key);
      forall k | 0 <= k < |s[1..]| ensures key(s[1..][k]) >= b {
        assert s[1..][k] == s[k + 1];
      }
      InsertByBound(x, s[1..], key, b);
      assert r == [s[0]] + rest;
      forall k | 0 <= k < |r| ensures key(r[k]) >= b {
        if k > 0 {
          assert r[k] == rest[k - 1];
        }
      }
    } else {
      assert r == [x] + s;
      forall k | 0 <= k < |r| ensures key(r[k]) >= b {
        if k > 0 {
          assert r[k] == s[k - 1];
        }
      }
    }
  }

  /** A sorted list headed by an element no larger than any of it is sorted. */
  lemma SortedCons<T>(h: T, rest: seq<T>, key: T -> int)
    requires SortedBy(rest, key)
    requires forall k :: 0 <= k < |rest| ==> key(h) <= key(rest[k])
    ensures SortedBy([h] + rest, key)
  {
    var r := [h] + rest;
    forall i, j | 0 <= i < j < |r| ensures key(r[i]) <= key(r[j]) {
      assert r[j] == rest[j - 1];
      if i > 0 {
        assert r[i] == rest[i - 1];
      }
    }
  }

  lemma {:induction false} FilterMultiset<T>(s: seq<T>, p: T -> bool)
    ensures multiset(Filter(s, p)) <= multiset(s)
    decreases |s|
  {
    if s != [] {
      assert s == [s[0]] + s[1..];
      FilterMultiset(s[1..], p);
    }
  }
  lemma {:induction false} FilterKeepsSorted<T>(s: seq<T>, key: T -> int, p: T -> bool)
    requires SortedBy(s, key)
    ensures SortedBy(Filter(s, p), key)
    decreases |s|
  {
    if s != [] {
      var tail := s[1..];
      FilterKeepsSorted(tail, key, p);
      forall m | 0 <= m < |tail| ensures key(tail[m]) >= key(s[0]) {
        assert tail[m] == s[m + 1];
      }
      FilterBound(tail, key, p, key(s[0]));
      if p(s[0]) {
        assert Filter(s, p) == [s[0]] + Filter(tail, p);
        SortedCons(s[0], Filter(tail, p), key);
      } else {
        assert Filter(s, p) == Filter(tail, p);
      }
    }
  }

  /** Filtering keeps a lower bound on the keys. */
  lemma {:induction false} FilterBound<T>(s: seq<T>, key: T -> int, p: T -> bool, b: int)
    requires forall k :: 0 <= k < |s| ==> key(s[k]) >= b
    ensures forall k :: 0 <= k < |Filter(s, p)| ==> key(Filter(s, p)[k]) >= b
    decreases |s|
  {
    if s != [] {
      var tail := s[1..];
      forall k | 0 <= k < |tail| ensures key(tail[k]) >= b {
        assert tail[k] == s[k + 1];
      }
      FilterBound(tail, key, p, b);
      var ft := Filter(tail, p);
      var r := Filter(s, p);
      if p(s[0]) {
        assert r == [s[0]] + ft;
        forall k | 0 <= k < |r| ensures key(r[k]) >= b {
          if k > 0 {
            assert r[k] == ft[k - 1];
          }
        }
      } else {
        assert r == ft;
      }
    }
  }

  lemma {:induction false} FilterInsertBy<T>(x: T, s: seq<T>, key: T -> int, p: T -> bool)
    requires SortedBy(s, key)
    ensures p(x) ==> Filter(InsertBy(x, s, key), p) == InsertBy(x, Filter(s, p), key)
    ensures !p(x) ==> Filter(InsertBy(x, s, key), p) == Filter(s, p)
    decreases |s|
  {
    var f := Filter(s, p);
    if s == [] {
      assert InsertBy(x, s, key) == [x];
      assert Filter([x], p) == (if p(x) then [x] else []) + Filter([x][1..], p);
    } else if key(x) <= key(s[0]) {
      var xs := [x] + s;
      assert xs[1..] == s;
      if p(x) && f != [] {
        FilterMultiset(s, p);
        assert f[0] in multiset(s);
        var m :| 0 <= m < |s| && s[m] == f[0];
        assert key(s[0]) <= key(s[m]);
      }
    } else {
      var tail := s[1..];
      var rest := InsertBy(x, tail, key);
      var ys := [s[0]] + rest;
      assert ys[1..] == rest;
      FilterInsertBy(x, tail, key, p);
      var ft := Filter(tail, p);
      if p(x) && p(s[0]) {
        assert f == [s[0]] + ft;
        assert f[0] == s[0] && f[1..] == ft;
        assert InsertBy(x, f, key) == [s[0]] + InsertBy(x, ft, key);
      } else if p(s[0]) {
        assert f == [s[0]] + ft;
      } else {
        assert f == ft;
      }
    }
  }
  /**
   * Stable insertion sort by key: ORDER BY key, elements of equal key keeping their
   * order in s.
   */
  function SortBy<T>(s: seq<T>, key: T -> int): seq<T> {
    if s == [] then [] else InsertBy(s[0], SortBy(s[1..], key), key)
  }
  lemma {:induction false} SortBySorted<T>(s: seq<T>, key: T -> int)
    ensures SortedBy(SortBy(s, key), key)
    ensures multiset(SortBy(s, key)) == multiset(s)
    decreases |s|
  {
    if s != [] {
      assert s == [s[0]] + s[1..];
      SortBySorted(s[1..], key);
      InsertBySorted(s[0], SortBy(s[1..], key), key);
      InsertByMultiset(s[0], SortBy(s[1..], key), key);
    }
  }
  /** Filtering a stably sorted sequence is the same as stably sorting the filtered one. */
  lemma {:induction false} FilterSortBy<T>(s: seq<T>, key: T -> int, p: T -> bool)
    ensures Filter(SortBy(s, key), p) == SortBy(Filter(s, p), key)
    decreases |s|
  {
    if s != [] {
      FilterSortBy(s[1..], key, p);
      SortBySorted(s[1..], key);
      FilterInsertBy(s[0], SortBy(s[1..], key), key, p);
      var fs := Filter(s, p);
      if p(s[0]) {
        assert fs == [s[0]] + Filter(s[1..], p);
        assert fs[0] == s[0] && fs[1..] == Filter(s[1..], p);
      } else {
        assert fs == Filter(s[1..], p);
      }
    }
  }
}
