/** All positive factors of a number (getFactors). */
module Factors {
  import opened Arith

  /** The exact integer square root; it stands for floor(sqrt(n)). */
  function IntegerSqrt(n: nat): (r: nat)
    ensures r * r <= n < (r + 1) * (r + 1)
  {
    if n == 0 then 0
    else
      var r := IntegerSqrt(n - 1);
      if (r + 1) * (r + 1) <= n then r + 1 else r
  }

  function Abs(value: int): nat {
    if value < 0 then -value else value
  }

  /** Ascending, and exactly the positive divisors of `n`. */
  ghost predicate ListsDivisors(r: seq<int>, n: nat) {
    && (forall j, k :: 0 <= j < k < |r| ==> r[j] <= r[k])
    && (forall k :: 0 <= k < |r| ==> 0 < r[k] && n % r[k] == 0)
    && (forall d :: 0 < d && n % d == 0 ==> d in r)
  }

  /** Entries at mirrored places multiply to `n`. */
  ghost predicate MirrorPairs(r: seq<int>, n: nat) {
    forall k :: 0 <= k < |r| ==> r[k] * r[|r| - 1 - k] == n
  }

  /** The only entry listed twice, side by side, is the root of a square above 1. */
  ghost predicate RepeatsOnlyTheRoot(r: seq<int>, n: nat) {
    && (forall j, k :: 0 <= j < k < |r| && r[j] == r[k] ==> r[j] * r[j] == n && 1 < n && k == j + 1)
    && (forall s :: 1 < s && s * s == n ==> Twice(r, s))
  }

  ghost predicate Twice(r: seq<int>, s: int) {
    exists j :: 0 <= j < |r| - 1 && r[j] == s == r[j + 1]
  }

  method GetFactors(value: int) returns (r: seq<int>)
    ensures value == 0 ==> r == []
    ensures value != 0 ==>
      ListsDivisors(r, Abs(value)) && MirrorPairs(r, Abs(value)) && RepeatsOnlyTheRoot(r, Abs(value))
  {
    var n := Abs(value);
    if n == 1 {
      OneAlone();
      return [1];
    }
    var low: seq<int>, high: seq<int> := [], [];
    var limit := IntegerSqrt(n);
    var i := limit;
    while i >= 1
      invariant 0 <= i <= limit
      invariant n == 0 ==> limit == 0 && low == high == []
      invariant Halves(n, limit, i, low, high)
    {
      HalvesStep(n, limit, i, low, high);
      if n % i == 0 {
        high := high + [n / i];
        low := low + [i];
      }
      i := i - 1;
    }
    r := seq(|low|, k requires 0 <= k < |low| => low[|low| - 1 - k]) + high;
    if n != 0 {
      FactorsCorrect(n, limit, low, high, r);
    }
  }

  lemma FactorsCorrect(n: nat, limit: nat, low: seq<int>, high: seq<int>, r: seq<int>)
    requires 1 < n && Halves(n, limit, 0, low, high) && Joined(low, high, r)
    ensures ListsDivisors(r, n) && MirrorPairs(r, n) && RepeatsOnlyTheRoot(r, n)
  {
    FactorsOrdered(n, limit, low, high, r);
    FactorsComplete(n, limit, low, high, r);
    forall s | 1 < s && s * s == n ensures Twice(r, s) {
      RootRepeated(n, limit, low, high, r, s);
    }
  }

  lemma HalvesStep(n: nat, limit: nat, i: nat, low: seq<int>, high: seq<int>)
    requires 0 < i <= limit && Halves(n, limit, i, low, high)
    ensures n % i == 0 ==> Halves(n, limit, i - 1, low + [i], high + [n / i])
    ensures n % i != 0 ==> Halves(n, limit, i - 1, low, high)
  {
    if n % i == 0 {
      var low', high' := low + [i], high + [n / i];
      assert i * (n / i) == n;
      assert low'[|low|] == i;
      forall d | i - 1 < d <= limit && n % d == 0 ensures d in low' {
        assert d == i || d in low;
      }
    }
  }

  lemma OneAlone()
    ensures ListsDivisors([1], 1) && MirrorPairs([1], 1) && RepeatsOnlyTheRoot([1], 1)
  {
    forall s | 1 < s ensures s * s != 1 { MulMonotone(2, s, s); }
    forall d | 1 < d ensures 1 % d != 0 { DivModUnique(1, d, 0, 1); }
    assert [1][0] == 1;
  }

  /** The factors above `i` found so far, descending, each beside its cofactor. */
  ghost predicate Halves(n: nat, limit: nat, i: nat, low: seq<int>, high: seq<int>) {
    && limit * limit <= n < (limit + 1) * (limit + 1)
    && |low| == |high|
    && (forall k :: 0 <= k < |low| ==> i < low[k] <= limit && n % low[k] == 0 && low[k] * high[k] == n)
    && (forall j, k :: 0 <= j < k < |low| ==> low[k] < low[j])
    && (forall d :: i < d <= limit && n % d == 0 ==> d in low)
  }

  ghost predicate Joined(low: seq<int>, high: seq<int>, r: seq<int>) {
    && |low| == |high| && |r| == 2 * |low|
    && (forall k :: 0 <= k < |low| ==> r[k] == low[|low| - 1 - k])
    && (forall k :: |low| <= k < |r| ==> r[k] == high[k - |low|])
  }

  lemma Cofactor(n: nat, limit: nat, a: int, b: int)
    requires 0 < n && limit * limit <= n < (limit + 1) * (limit + 1)
    requires 0 < a <= limit && a * b == n
    ensures limit <= b && n % b == 0
  {
    MulMonotone(a, limit, if 0 <= b then b else 0);
    if b <= 0 { MulMonotone(0, -b, a); assert false; }
    if b < limit {
      MulMonotone(b + 1, limit, limit);
      assert false;
    }
    DivModUnique(n, b, a, 0);
  }

  /** A smaller factor has a larger cofactor. */
  lemma CofactorsOpposed(n: nat, a: int, b: int, c: int, d: int)
    requires 0 < n && 0 < a < c && a * b == n == c * d
    ensures d < b
  {
    if d <= 0 { MulMonotone(0, -d, c); assert false; }
    MulMonotone(a + 1, c, d);
    if b <= d { MulMonotone(b, d, a); assert false; }
  }

  lemma FactorsOrdered(n: nat, limit: nat, low: seq<int>, high: seq<int>, r: seq<int>)
    requires 1 < n && Halves(n, limit, 0, low, high) && Joined(low, high, r)
    ensures forall j, k :: 0 <= j < k < |r| ==> r[j] <= r[k]
    ensures forall j, k :: 0 <= j < k < |r| && r[j] == r[k] ==> r[j] * r[j] == n && k == j + 1
  {
    forall j, k | 0 <= j < k < |r|
      ensures r[j] <= r[k]
      ensures r[j] == r[k] ==> r[j] * r[j] == n && k == j + 1
    {
      var m := |low|;
      if k < m {
        assert r[j] < r[k];
      } else if j >= m {
        CofactorsOpposed(n, low[k - m], high[k - m], low[j - m], high[j - m]);
      } else {
        AcrossTheMiddle(n, limit, low, high, m - 1 - j, k - m);
      }
    }
  }

  lemma AcrossTheMiddle(n: nat, limit: nat, low: seq<int>, high: seq<int>, a: nat, b: nat)
    requires 1 < n && Halves(n, limit, 0, low, high) && a < |low| && b < |low|
    ensures low[a] <= high[b]
    ensures low[a] == high[b] ==> a == 0 == b && low[a] * low[a] == n
  {
    Cofactor(n, limit, low[b], high[b]);
    Cofactor(n, limit, low[0], high[0]);
    if 0 < b { CofactorsOpposed(n, low[b], high[b], low[0], high[0]); }
  }

  lemma FactorsComplete(n: nat, limit: nat, low: seq<int>, high: seq<int>, r: seq<int>)
    requires 1 < n && Halves(n, limit, 0, low, high) && Joined(low, high, r)
    ensures forall k :: 0 <= k < |r| ==> 0 < r[k] && n % r[k] == 0
    ensures forall d :: 0 < d && n % d == 0 ==> d in r
    ensures MirrorPairs(r, n)
  {
    var m := |low|;
    forall k | 0 <= k < |r| ensures 0 < r[k] && n % r[k] == 0 && r[k] * r[|r| - 1 - k] == n {
      if k >= m {
        Cofactor(n, limit, low[k - m], high[k - m]);
        assert r[|r| - 1 - k] == low[k - m];
      } else {
        assert r[|r| - 1 - k] == high[m - 1 - k];
      }
    }
    forall d | 0 < d && n % d == 0 ensures d in r {
      DivisorListed(n, limit, low, high, r, d);
    }
  }

  lemma DivisorListed(n: nat, limit: nat, low: seq<int>, high: seq<int>, r: seq<int>, d: int)
    requires 1 < n && Halves(n, limit, 0, low, high) && Joined(low, high, r)
    requires 0 < d && n % d == 0
    ensures d in r
  {
    var m, q := |low|, n / d;
    assert n == q * d;
    if d <= limit {
      assert d in low;
      var k :| 0 <= k < m && low[k] == d;
      assert r[m - 1 - k] == d;
    } else {
      SmallCofactor(n, limit, d, q);
      assert q in low;
      var k :| 0 <= k < m && low[k] == q;
      DivModUnique(n, q, high[k], 0);
      assert r[m + k] == d;
    }
  }

  lemma SmallCofactor(n: nat, limit: nat, d: int, q: int)
    requires 0 < n < (limit + 1) * (limit + 1) && limit < d && q * d == n
    ensures 0 < q <= limit && n % q == 0 && n / q == d
  {
    if q <= 0 { MulMonotone(0, -q, d); assert false; }
    MulMonotone(limit + 1, d, limit + 1);
    if q > limit { MulMonotone(limit + 1, q, d); assert false; }
    DivModUnique(n, q, d, 0);
  }

  lemma RootIsLimit(n: nat, limit: nat, s: int)
    requires limit * limit <= n < (limit + 1) * (limit + 1) && 1 < s && s * s == n
    ensures s == limit && n % s == 0
  {
    if s < limit { MulMonotone(s + 1, limit, s); MulMonotone(s + 1, limit, limit); assert false; }
    if s > limit { SmallCofactor(n, limit, s, s); assert false; }
    DivModUnique(n, s, s, 0);
  }

  lemma RootRepeated(n: nat, limit: nat, low: seq<int>, high: seq<int>, r: seq<int>, s: int)
    requires Halves(n, limit, 0, low, high) && Joined(low, high, r) && 1 < s && s * s == n
    ensures Twice(r, s)
  {
    RootIsLimit(n, limit, s);
    assert s in low;
    var k :| 0 <= k < |low| && low[k] == s;
    assert low[0] <= limit;
    assert k == 0;
    DivModUnique(n, s, high[0], 0);
    assert r[|low| - 1] == s && r[|low|] == s;
  }
}
