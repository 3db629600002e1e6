/** The index phase of `fft_process`: the in-place bit-reversal permutation
    that precedes the radix-2 butterflies. Only integer indexing is modelled;
    the butterflies and twiddle factors are floating point and left out. */
module BitReverse {

  function Pow2(k: nat): (p: nat)
    ensures p >= 1
  {
    if k == 0 then 1 else 2 * Pow2(k - 1)
  }

  /** `j & bit != 0` for a mask `bit` that is a power of two or zero. */
  predicate BitSet(j: nat, bit: nat) {
    bit != 0 && (j / bit) % 2 == 1
  }

  /** `j ^ bit` for a mask `bit` that is a power of two or zero. */
  function FlipBit(j: nat, bit: nat): (r: nat)
    ensures BitSet(j, bit) ==> r + bit == j
    ensures bit != 0 && !BitSet(j, bit) ==> r == j + bit
    ensures bit == 0 ==> r == j
  {
    if bit == 0 then j else if BitSet(j, bit) then j - bit else j + bit
  }

  /** `j ^= bit` toggles the bit and only that bit: the bit reads set
      exactly when it read clear before, the bits below it (`j % bit`) and
      above it (`j / bit / 2`) are unchanged. */
  lemma FlipBitToggles(j: nat, bit: nat)
    requires bit > 0
    ensures BitSet(FlipBit(j, bit), bit) <==> !BitSet(j, bit)
    ensures FlipBit(j, bit) % bit == j % bit
    ensures FlipBit(j, bit) / bit / 2 == j / bit / 2
  {
    var r := FlipBit(j, bit);
    if BitSet(j, bit) {
      DivStep(r, bit);
    } else {
      DivStep(j, bit);
    }
  }

  /** Adding the divisor once adds one to the quotient and keeps the remainder. */
  lemma DivStep(x: nat, b: nat)
    requires b > 0
    ensures (x + b) / b == x / b + 1 && (x + b) % b == x % b
  {
    var q, m := x / b, x % b;
    var q', m' := (x + b) / b, (x + b) % b;
    assert x == q * b + m && x + b == q' * b + m';
    assert (q' - q - 1) * b == m - m';
    MulSign(q' - q - 1, b);
  }

  /** A non-zero multiple of b is at least b away from 0. */
  lemma {:induction false} MulSign(d: int, b: nat)
    ensures d >= 1 ==> d * b >= b
    ensures d <= -1 ==> d * b + b <= 0
    decreases if d >= 0 then d else -d
  {
    if d > 1 {
      MulSign(d - 1, b);
    } else if d < -1 {
      MulSign(d + 1, b);
    }
  }

  /** Bit b (0 or 1) placed at position k: b * 2^k. */
  function Weight(b: nat, k: nat): (w: nat)
  {
    if b == 1 then Pow2(k) else 0
  }

  /** The reverse of the low k bits of i: bit 0 of i becomes bit k-1. */
  function Rev(i: nat, k: nat): (r: nat)
    ensures r < Pow2(k)
  {
    if k == 0 then 0 else Weight(i % 2, k - 1) + Rev(i / 2, k - 1)
  }

  /** What the inner `for (; j & bit; bit >>= 1) j ^= bit; j ^= bit;` computes:
      clear the set bits from `bit` downwards until the first clear one, and
      set that one. */
  function RevInc(j: nat, bit: nat): (r: nat)
    decreases bit
  {
    if BitSet(j, bit) then RevInc(FlipBit(j, bit), bit / 2) else FlipBit(j, bit)
  }

  /** The permutation that the swap pass applies to a window of length 2^k. */
  function BitReversed<T>(s: seq<T>, k: nat): (r: seq<T>)
    requires |s| == Pow2(k)
    ensures |r| == |s|
  {
    seq(|s|, i requires 0 <= i < |s| => s[Rev(i, k)])
  }

  /** For x = 2m + r with r a bit: `x >> 1 == m` and `x & 1 == r`. */
  lemma Halve(x: nat, m: nat, r: nat)
    requires r < 2 && x == 2 * m + r
    ensures x / 2 == m && x % 2 == r
  {
  }

  /** With y below the power of two p, bit p of p + y is set and of y clear. */
  lemma TopBit(p: nat, y: nat)
    requires y < p
    ensures (p + y) / p == 1 && y / p == 0
  {
    var q: nat, z: nat := (p + y) / p, y / p;
    assert p + y == q * p + (p + y) % p && y == z * p + y % p;
    MulCases(q, p);
    MulCases(z, p);
  }

  /** Multiples of p by quotients 0, 1 and at least 2. */
  lemma {:induction false} MulCases(q: nat, p: nat)
    ensures q == 0 ==> q * p == 0
    ensures q == 1 ==> q * p == p
    ensures q >= 2 ==> q * p >= 2 * p
  {
    if q > 2 {
      MulCases(q - 1, p);
    }
  }

  lemma {:induction false} RevZero(k: nat)
    ensures Rev(0, k) == 0
  {
    if k > 0 {
      RevZero(k - 1);
    }
  }

  lemma RevOneBit(b: nat, y: nat)
    requires b < 2 && y < Pow2(0)
    ensures Rev(Weight(b, 0) + y, 1) == 2 * Rev(y, 0) + b
  {
    assert y == 0 && Weight(b, 0) + y == b;
    Halve(b, 0, b);
  }

  /** Reversing b * 2^(k-1) + y over k bits moves the top bit b to the bottom. */
  lemma {:induction false} RevTop(b: nat, y: nat, k: nat)
    requires 1 <= k && b < 2 && y < Pow2(k - 1)
    ensures Rev(Weight(b, k - 1) + y, k) == 2 * Rev(y, k - 1) + b
  {
    if k == 1 {
      RevOneBit(b, y);
    } else {
      RevTop(b, y / 2, k - 1);
      RevTopStep(b, y, k);
    }
  }

  /** The inductive step of RevTop: the lowest bit of y goes on top of the
      reversal of the rest. */
  lemma RevTopStep(b: nat, y: nat, k: nat)
    requires 2 <= k && b < 2 && y < Pow2(k - 1)
    requires Rev(Weight(b, k - 2) + y / 2, k - 1) == 2 * Rev(y / 2, k - 2) + b
    ensures Rev(Weight(b, k - 1) + y, k) == 2 * Rev(y, k - 1) + b
  {
    var x := Weight(b, k - 1) + y;
    var r, h := y % 2, y / 2;
    assert Weight(b, k - 1) == 2 * Weight(b, k - 2);
    Halve(x, Weight(b, k - 2) + h, r);
    assert Rev(x, k) == Weight(r, k - 1) + Rev(Weight(b, k - 2) + h, k - 1);
    assert Rev(y, k - 1) == Weight(r, k - 2) + Rev(h, k - 2);
    assert Weight(r, k - 1) == 2 * Weight(r, k - 2);
  }

  /** Bit reversal is an involution on indices below 2^k. */
  lemma {:induction false} RevInvolution(i: nat, k: nat)
    requires i < Pow2(k)
    ensures Rev(Rev(i, k), k) == i
  {
    if k > 0 {
      RevInvolution(i / 2, k - 1);
      RevTop(i % 2, Rev(i / 2, k - 1), k);
    }
  }

  /** The inner loop steps j from the reverse of i to the reverse of i + 1:
      a binary increment performed from the top bit down. */
  lemma {:induction false} RevIncStep(i: nat, k: nat)
    requires i + 1 < Pow2(k)
    ensures RevInc(Rev(i, k), Pow2(k) / 2) == Rev(i + 1, k)
  {
    assert k >= 1;
    Halve(Pow2(k), Pow2(k - 1), 0);
    if i % 2 == 0 {
      RevIncEven(i, k);
    } else {
      assert k >= 2;
      RevIncStep(i / 2, k - 1);
      RevIncOdd(i, k);
    }
  }

  /** Bit 0 of i is clear: j has its top bit clear, and the inner loop only
      sets it. */
  lemma RevIncEven(i: nat, k: nat)
    requires 1 <= k && i % 2 == 0 && i + 1 < Pow2(k)
    ensures RevInc(Rev(i, k), Pow2(k - 1)) == Rev(i + 1, k)
  {
    var p, y := Pow2(k - 1), Rev(i / 2, k - 1);
    TopBit(p, y);
    Halve(i + 1, i / 2, 1);
    assert Rev(i, k) == y;
    assert Rev(i + 1, k) == p + y;
    assert !BitSet(y, p);
  }

  /** Bit 0 of i is set: the inner loop clears the top bit of j and carries
      into the reversal of the remaining k - 1 bits. */
  lemma RevIncOdd(i: nat, k: nat)
    requires 2 <= k && i % 2 == 1 && i + 1 < Pow2(k)
    requires RevInc(Rev(i / 2, k - 1), Pow2(k - 1) / 2) == Rev(i / 2 + 1, k - 1)
    ensures RevInc(Rev(i, k), Pow2(k - 1)) == Rev(i + 1, k)
  {
    var p, y := Pow2(k - 1), Rev(i / 2, k - 1);
    TopBit(p, y);
    Halve(i + 1, i / 2 + 1, 0);
    assert Rev(i, k) == p + y;
    assert Rev(i + 1, k) == Rev(i / 2 + 1, k - 1);
    assert BitSet(p + y, p) && FlipBit(p + y, p) == y;
  }

  /** The same as seen from the swap loop: with j the reverse of i - 1, the
      inner loop leaves j the reverse of i, a valid index. */
  lemma NextReverse(i: nat, k: nat, n: nat, j0: nat, j: nat)
    requires n == Pow2(k) && 1 <= i < n
    requires j0 == Rev(i - 1, k) && j == RevInc(j0, n / 2)
    ensures j == Rev(i, k) && j < n
  {
    RevIncStep(i - 1, k);
  }

  /** Applying the permutation twice gives back the input. */
  lemma BitReversedInvolution<T>(s: seq<T>, k: nat)
    requires |s| == Pow2(k)
    ensures BitReversed(BitReversed(s, k), k) == s
  {
    var r := BitReversed(s, k);
    forall i | 0 <= i < |s|
      ensures BitReversed(r, k)[i] == s[i]
    {
      RevInvolution(i, k);
    }
  }

  /** Index i and its reverse trade places; both fall in the same pair. */
  function PairLow(p: nat, k: nat): (low: nat)
    ensures low == p || low == Rev(p, k)
    ensures low <= p && low <= Rev(p, k)
  {
    var q := Rev(p, k);
    if p < q then p else q
  }

  /** The window after the swap pass has handled exactly the pairs whose
      lower index is below i. */
  function PartlySwapped<T>(s: seq<T>, i: nat, k: nat): (r: seq<T>)
    requires |s| == Pow2(k)
    ensures |r| == |s|
  {
    seq(|s|, p requires 0 <= p < |s| => s[if PairLow(p, k) < i then Rev(p, k) else p])
  }

  /** One iteration of the swap pass, at index i with j the reverse of i. */
  lemma SwapStep<T>(s: seq<T>, i: nat, k: nat)
    requires |s| == Pow2(k) && 0 < i < |s|
    ensures Rev(i, k) < |s|
    ensures var cur, j := PartlySwapped(s, i, k), Rev(i, k);
      PartlySwapped(s, i + 1, k) == if i < j then cur[i := cur[j]][j := cur[i]] else cur
  {
    var j := Rev(i, k);
    RevInvolution(i, k);
    var cur := PartlySwapped(s, i, k);
    var next := if i < j then cur[i := cur[j]][j := cur[i]] else cur;
    forall p | 0 <= p < |s|
      ensures next[p] == PartlySwapped(s, i + 1, k)[p]
    {
      RevInvolution(p, k);
      if PairLow(p, k) == i {
        assert p == i || p == j;
      }
    }
  }

  /** The inner loop of the first phase of `fft_process`: starting from the
      top bit `n >> 1`, clear set bits downwards, then set the first clear one. */
  method ReverseIncrement(j0: nat, n: nat) returns (j: nat)
    ensures j == RevInc(j0, n / 2)
  {
    j := j0;
    var bit: nat := n / 2;
    while BitSet(j, bit)
      invariant RevInc(j, bit) == RevInc(j0, n / 2)
      decreases bit
    {
      j := FlipBit(j, bit);
      bit := bit / 2;
    }
    j := FlipBit(j, bit);
  }

  /** Before the pass nothing has moved; index 0 is its own reverse. */
  lemma SwappedNothing<T>(s: seq<T>, k: nat)
    requires |s| == Pow2(k)
    ensures PartlySwapped(s, 1, k) == s
  {
    RevZero(k);
    forall p | 0 <= p < |s|
      ensures PartlySwapped(s, 1, k)[p] == s[p]
    {
      RevInvolution(p, k);
    }
  }

  /** After the pass every pair has been handled. */
  lemma SwappedAll<T>(s: seq<T>, k: nat)
    requires |s| == Pow2(k)
    ensures PartlySwapped(s, |s|, k) == BitReversed(s, k)
  {
  }

  /** Exchanging two entries, or leaving them, keeps the multiset of entries. */
  lemma SwapKeepsMultiset<T>(cur: seq<T>, next: seq<T>, i: nat, j: nat)
    requires i < |cur| && j < |cur|
    requires next == if i < j then cur[i := cur[j]][j := cur[i]] else cur
    ensures multiset(next) == multiset(cur)
  {
  }

  /** Every stage of the swap pass is a permutation of the input. */
  lemma {:induction false} PartlySwappedIsPermutation<T>(s: seq<T>, i: nat, k: nat)
    requires |s| == Pow2(k) && 1 <= i <= |s|
    ensures multiset(PartlySwapped(s, i, k)) == multiset(s)
    decreases i
  {
    if i == 1 {
      SwappedNothing(s, k);
    } else {
      PartlySwappedIsPermutation(s, i - 1, k);
      SwapStepIsPermutation(s, i - 1, k);
    }
  }

  /** One iteration of the swap pass keeps the multiset of the window. */
  lemma SwapStepIsPermutation<T>(s: seq<T>, i: nat, k: nat)
    requires |s| == Pow2(k) && 0 < i < |s|
    requires multiset(PartlySwapped(s, i, k)) == multiset(s)
    ensures multiset(PartlySwapped(s, i + 1, k)) == multiset(s)
  {
    var cur, next := PartlySwapped(s, i, k), PartlySwapped(s, i + 1, k);
    SwapStep(s, i, k);
    SwapKeepsMultiset(cur, next, i, Rev(i, k));
    assert multiset(next) == multiset(cur);
  }

  /** The bit-reversal permutation is a permutation: it only moves samples. */
  lemma BitReversedIsPermutation<T>(s: seq<T>, k: nat)
    requires |s| == Pow2(k)
    ensures multiset(BitReversed(s, k)) == multiset(s)
  {
    PartlySwappedIsPermutation(s, |s|, k);
    SwappedAll(s, k);
  }

  /** `std::swap(a[i], a[j])`. */
  method Swap<T>(a: array<T>, i: nat, j: nat)
    requires i < a.Length && j < a.Length
    modifies a
    ensures a[..] == old(a[..])[i := old(a[j])][j := old(a[i])]
  {
    a[i], a[j] := a[j], a[i];
  }

  /** One iteration of the swap loop at index i: advance j from the reverse
      of i - 1 to the reverse of i, then swap entries i and j if i < j. */
  method SwapPair<T>(a: array<T>, i: nat, j0: nat, ghost s: seq<T>, ghost k: nat) returns (j: nat)
    requires a.Length == |s| == Pow2(k) && 1 <= i < a.Length
    requires j0 == Rev(i - 1, k) && a[..] == PartlySwapped(s, i, k)
    modifies a
    ensures j == Rev(i, k) && a[..] == PartlySwapped(s, i + 1, k)
  {
    j := ReverseIncrement(j0, a.Length);
    NextReverse(i, k, a.Length, j0, j);
    SwapStep(s, i, k);
    if i < j {
      Swap(a, i, j);
    }
  }

  /** The first phase of `fft_process` on a vector of length n = 2^k: j tracks
      the bit reverse of i, and each pair i < j is swapped exactly once. */
  method BitReversePermute<T>(a: array<T>, ghost k: nat)
    requires a.Length == Pow2(k)
    modifies a
    ensures a[..] == BitReversed(old(a[..]), k)
  {
    ghost var s := a[..];
    var n := a.Length;
    var i: nat, j: nat := 1, 0;
    RevZero(k);
    SwappedNothing(s, k);
    while i < n
      invariant 1 <= i <= n
      invariant j == Rev(i - 1, k)
      invariant a[..] == PartlySwapped(s, i, k)
    {
      j := SwapPair(a, i, j, s, k);
      i := i + 1;
    }
    SwappedAll(s, k);
  }
}
