/** 64-bit two's complement words as bit sequences, lowest bit first: what `>>` and `&`
    do to signed words. */
module TwosComplement {
  import opened Arith

  type Bits = b: seq<bool> | 0 < |b| witness [false]

  function Pow2(k: nat): (p: int)
    ensures 0 < p
  {
    if k == 0 then 1 else 2 * Pow2(k - 1)
  }

  /** `a` is representable in `n` bits. */
  predicate Fits(a: int, n: nat)
    requires 0 < n
  {
    -Pow2(n - 1) <= a < Pow2(n - 1)
  }

  function ToBits(a: int, n: nat): (b: Bits)
    requires 0 < n && Fits(a, n)
    ensures |b| == n
    decreases n, a
  {
    if n == 1 then [a < 0] else [a % 2 == 1] + ToBits(a / 2, n - 1)
  }

  /** The signed value of a word; the last bit carries negative weight. */
  function FromBits(b: Bits): int
    decreases |b|
  {
    if |b| == 1 then (if b[0] then -1 else 0)
    else (if b[0] then 1 else 0) + 2 * FromBits(b[1..])
  }

  lemma {:induction false} RoundTrip(a: int, n: nat)
    requires 0 < n && Fits(a, n)
    ensures FromBits(ToBits(a, n)) == a
    decreases n
  {
    if n > 1 {
      RoundTrip(a / 2, n - 1);
      assert ToBits(a, n)[1..] == ToBits(a / 2, n - 1);
    }
  }

  function AndBits(x: Bits, y: Bits): (z: Bits)
    requires |x| == |y|
  {
    seq(|x|, i requires 0 <= i < |x| => x[i] && y[i])
  }

  /** Arithmetic shift: drop the low bits, refill with the sign bit. */
  function SarBits(x: Bits, k: nat): (z: Bits)
    requires k < |x|
  {
    x[k..] + seq(k, _ => x[|x| - 1])
  }

  // ----- The word operations on signed numbers -----

  const WORD: nat := 64

  predicate InWord(a: int) {
    Fits(a, WORD)
  }

  function BitAnd(a: int, b: int): int
    requires InWord(a) && InWord(b)
  {
    FromBits(AndBits(ToBits(a, WORD), ToBits(b, WORD)))
  }

  function ShiftRight(a: int, k: nat): int
    requires InWord(a) && k < WORD
  {
    FromBits(SarBits(ToBits(a, WORD), k))
  }

  // ----- Shifting -----

  lemma {:induction false} SignExtend(x: Bits, k: nat)
    ensures FromBits(x + seq(k, _ => x[|x| - 1])) == FromBits(x)
    decreases k, |x|
  {
    var fill := seq(k, _ => x[|x| - 1]);
    if k == 0 {
      assert x + fill == x;
    } else if |x| > 1 {
      assert (x + fill)[1..] == x[1..] + fill;
      assert fill == seq(k, _ => x[1..][|x[1..]| - 1]);
      SignExtend(x[1..], k);
    } else {
      var fill' := seq(k - 1, _ => x[|x| - 1]);
      assert (x + fill)[1..] == x + fill';
      SignExtend(x, k - 1);
    }
  }

  lemma {:induction false} DropHalves(x: Bits, k: nat)
    requires k < |x|
    ensures FromBits(x[k..]) == FromBits(x) / Pow2(k)
    decreases k
  {
    if k == 0 {
      assert x[0..] == x;
      assert FromBits(x) / 1 == FromBits(x);
    } else {
      DropHalves(x[1..], k - 1);
      assert x[1..][k - 1..] == x[k..];
      assert FromBits(x) / 2 == FromBits(x[1..]);
      DivDiv(FromBits(x), 2, Pow2(k - 1));
    }
  }

  /** Arithmetic shift right is floor division by a power of two, for negatives too. */
  lemma ShiftIsFloorDivision(a: int, k: nat)
    requires InWord(a) && k < WORD
    ensures ShiftRight(a, k) == a / Pow2(k)
  {
    var x := ToBits(a, WORD);
    RoundTrip(a, WORD);
    DropHalves(x, k);
    assert x[k..][|x[k..]| - 1] == x[|x| - 1];
    assert SarBits(x, k) == x[k..] + seq(k, _ => x[k..][|x[k..]| - 1]);
    SignExtend(x[k..], k);
  }

  // ----- Masking -----

  lemma AndUnfold(x: Bits, y: Bits)
    requires |x| == |y| && 1 < |x|
    ensures AndBits(x, y)[1..] == AndBits(x[1..], y[1..])
    ensures FromBits(AndBits(x, y)) ==
      (if x[0] && y[0] then 1 else 0) + 2 * FromBits(AndBits(x[1..], y[1..]))
  {
    assert AndBits(x, y)[1..] == AndBits(x[1..], y[1..]);
  }

  lemma {:induction false} Pow2Monotone(j: nat, k: nat)
    requires j <= k
    ensures Pow2(j) <= Pow2(k)
    decreases k
  {
    if j < k { Pow2Monotone(j, k - 1); }
  }

  lemma MaskFits(k: nat, n: nat)
    requires k < n
    ensures Fits(Pow2(k) - 1, n)
  {
    Pow2Monotone(k, n - 1);
  }

  lemma {:induction false} MaskKeepsRemainder(a: int, k: nat, n: nat)
    requires k < n && Fits(a, n) && Fits(Pow2(k) - 1, n)
    ensures FromBits(AndBits(ToBits(a, n), ToBits(Pow2(k) - 1, n))) == a % Pow2(k)
    decreases n
  {
    var m := Pow2(k) - 1;
    var x, y := ToBits(a, n), ToBits(m, n);
    if n == 1 {
      assert a % 1 == 0;
    } else {
      AndUnfold(x, y);
      assert x[1..] == ToBits(a / 2, n - 1) && y[1..] == ToBits(m / 2, n - 1);
      if k == 0 {
        assert m / 2 == 0 == Pow2(0) - 1;
        MaskKeepsRemainder(a / 2, 0, n - 1);
        assert (a / 2) % 1 == 0 && a % 1 == 0;
      } else {
        assert m / 2 == Pow2(k - 1) - 1;
        MaskKeepsRemainder(a / 2, k - 1, n - 1);
        DivDiv(a, 2, Pow2(k - 1));
      }
    }
  }

  /** Masking with 2^k - 1 is the non-negative remainder by 2^k, for negatives too. */
  lemma MaskIsRemainder(a: int, k: nat)
    requires InWord(a) && k < WORD
    ensures InWord(Pow2(k) - 1)
    ensures BitAnd(a, Pow2(k) - 1) == a % Pow2(k)
  {
    MaskFits(k, WORD);
    MaskKeepsRemainder(a, k, WORD);
  }

  // ----- Recognising powers of two -----

  function TrailingZeros(v: int): (k: nat)
    requires 0 < v
  {
    if v % 2 == 1 then 0 else 1 + TrailingZeros(v / 2)
  }

  lemma AndWithSelf(x: Bits)
    ensures AndBits(x, x) == x
  {
  }

  lemma OddMeetsEven(v: int, n: nat)
    requires 1 < n && 0 < v && v % 2 == 1 && Fits(v, n) && Fits(v - 1, n)
    ensures FromBits(AndBits(ToBits(v, n), ToBits(v - 1, n))) == 2 * (v / 2)
  {
    var x, y := ToBits(v, n), ToBits(v - 1, n);
    AndUnfold(x, y);
    assert (v - 1) / 2 == v / 2;
    assert x[1..] == ToBits(v / 2, n - 1) == y[1..];
    AndWithSelf(x[1..]);
    RoundTrip(v / 2, n - 1);
  }

  lemma EvenMeetsOdd(v: int, n: nat)
    requires 1 < n && 0 < v && v % 2 == 0 && Fits(v, n) && Fits(v - 1, n)
    ensures Fits(v / 2, n - 1) && Fits(v / 2 - 1, n - 1)
    ensures FromBits(AndBits(ToBits(v, n), ToBits(v - 1, n))) ==
      2 * FromBits(AndBits(ToBits(v / 2, n - 1), ToBits(v / 2 - 1, n - 1)))
  {
    var x, y := ToBits(v, n), ToBits(v - 1, n);
    AndUnfold(x, y);
    assert (v - 1) / 2 == v / 2 - 1;
    assert x[1..] == ToBits(v / 2, n - 1) && y[1..] == ToBits(v / 2 - 1, n - 1);
  }

  lemma {:induction false} LowestBitAlone(v: int, n: nat)
    requires 0 < n && 0 < v && Fits(v, n) && Fits(v - 1, n)
    ensures FromBits(AndBits(ToBits(v, n), ToBits(v - 1, n))) == 0 <==> v == Pow2(TrailingZeros(v))
    ensures v == Pow2(TrailingZeros(v)) ==> TrailingZeros(v) < n
    decreases n
  {
    assert n > 1;
    if v % 2 == 1 {
      OddMeetsEven(v, n);
    } else {
      EvenMeetsOdd(v, n);
      LowestBitAlone(v / 2, n - 1);
    }
  }

  lemma {:induction false} TrailingZerosOfPow2(k: nat)
    ensures TrailingZeros(Pow2(k)) == k
  {
    if k > 0 { TrailingZerosOfPow2(k - 1); }
  }

  /** The test v > 0 && (v & (v - 1)) == 0. */
  predicate IsPowerOf2(v: int)
    requires InWord(v)
  {
    0 < v && BitAnd(v, v - 1) == 0
  }

  /** The bit trick recognises exactly the powers of two, and their exponent is the
      number of trailing zeros. */
  lemma PowerTest(v: int)
    requires InWord(v)
    ensures IsPowerOf2(v) <==> exists k: nat :: v == Pow2(k)
    ensures IsPowerOf2(v) ==> TrailingZeros(v) < WORD && v == Pow2(TrailingZeros(v))
  {
    if 0 < v {
      BitTest(v);
      PowersHaveTheirZeros(v);
    } else {
      PowersArePositive(v);
    }
  }

  lemma BitTest(v: int)
    requires InWord(v) && 0 < v
    ensures IsPowerOf2(v) <==> v == Pow2(TrailingZeros(v))
    ensures v == Pow2(TrailingZeros(v)) ==> TrailingZeros(v) < WORD
  {
    LowestBitAlone(v, WORD);
  }

  lemma PowersArePositive(v: int)
    requires v <= 0
    ensures !exists k: nat :: v == Pow2(k)
  {
  }

  lemma PowersHaveTheirZeros(v: int)
    requires 0 < v
    ensures v == Pow2(TrailingZeros(v)) <==> exists k: nat :: v == Pow2(k)
  {
    forall k: nat | v == Pow2(k) ensures v == Pow2(TrailingZeros(v)) {
      TrailingZerosOfPow2(k);
    }
  }
}
