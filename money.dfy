/** Fixed-point money. Amounts are integer cents (two decimal places) and
    durations integer hundredths of an hour; Python's
    `Decimal.quantize(Decimal("0.01"))` under the default context rounds a
    value to the nearest such unit, ties going to the even neighbour
    (ROUND_HALF_EVEN). */
module Money {

  import opened Seqs

  /** `n / d` rounded to the nearest integer, ties to the even one. The
      division is exact (rational); `/` and `%` below are floor division and
      its non-negative remainder, since `d > 0`. */
  function RoundHalfEven(n: int, d: int): (r: int)
    requires d > 0
    ensures 2 * (n - r * d) <= d && 2 * (r * d - n) <= d
    ensures (2 * (n - r * d) == d || 2 * (r * d - n) == d) ==> r % 2 == 0
  {
    var q, m := n / d, n % d;
    assert n - q * d == m;
    assert n - (q + 1) * d == m - d;
    if 2 * m < d then q
    else if 2 * m > d then q + 1
    else if q % 2 == 0 then q
    else q + 1
  }

  /** The two clauses above leave no choice: at most one integer is within
      half a unit and, on a tie, even. */
  lemma RoundHalfEvenUnique(n: int, d: int, r: int)
    requires d > 0
    requires 2 * (n - r * d) <= d && 2 * (r * d - n) <= d
    requires (2 * (n - r * d) == d || 2 * (r * d - n) == d) ==> r % 2 == 0
    ensures r == RoundHalfEven(n, d)
  {
    var s := RoundHalfEven(n, d);
    var x, y := n - r * d, n - s * d;
    var ed := (r - s) * d;
    assert ed == y - x by { MulSub(r, s, d); }
    MulCases(r - s, d);
    TwoErrorsAgree(x, y, ed, d, r, s);
  }

  /** The linear core of uniqueness: errors `x`, `y` of candidates `r`, `s`
      that differ by `ed == (r - s) * d`. */
  lemma TwoErrorsAgree(x: int, y: int, ed: int, d: int, r: int, s: int)
    requires d > 0 && ed == y - x
    requires -d <= 2 * x <= d && -d <= 2 * y <= d
    requires (2 * x == d || 2 * x == -d) ==> r % 2 == 0
    requires (2 * y == d || 2 * y == -d) ==> s % 2 == 0
    requires r - s >= 2 ==> ed >= 2 * d
    requires r - s <= -2 ==> ed <= -2 * d
    requires r - s == 1 ==> ed == d
    requires r - s == -1 ==> ed == -d
    ensures r == s
  {
  }

  lemma MulSub(r: int, s: int, d: int)
    ensures (r - s) * d == r * d - s * d
  {
  }

  /** What `e * d` is for a positive `d`, by the size of `e`. */
  lemma MulCases(e: int, d: int)
    requires d > 0
    ensures e >= 2 ==> e * d >= 2 * d
    ensures e <= -2 ==> e * d <= -2 * d
    ensures e == 1 ==> e * d == d
    ensures e == -1 ==> e * d == -d
  {
    if e >= 2 {
      assert e * d == 2 * d + (e - 2) * d;
    } else if e <= -2 {
      assert e * d == -2 * d - (-e - 2) * d;
    }
  }

  /** An exact quotient is left as it is. */
  lemma RoundExact(k: int, d: int)
    requires d > 0
    ensures RoundHalfEven(k * d, d) == k
  {
    RoundHalfEvenUnique(k * d, d, k);
  }

  /** Sum of a sequence of amounts. */
  function Sum(s: seq<int>): int
  {
    if s == [] then 0 else s[0] + Sum(s[1..])
  }

  lemma {:induction false} SumAppend(a: seq<int>, b: seq<int>)
    ensures Sum(a + b) == Sum(a) + Sum(b)
  {
    if a == [] {
      assert a + b == b;
    } else {
      SumAppend(a[1..], b);
      assert (a + b)[1..] == a[1..] + b;
    }
  }

  /** Removing the element at `i` takes its amount out of the sum. */
  lemma SumRemove(s: seq<int>, i: nat)
    requires i < |s|
    ensures Sum(s) == s[i] + Sum(s[..i] + s[i + 1..])
  {
    assert s == s[..i] + ([s[i]] + s[i + 1..]);
    SumAppend(s[..i], [s[i]] + s[i + 1..]);
    SumAppend(s[..i], s[i + 1..]);
  }

  /** The sum does not depend on the order of the amounts. */
  lemma {:induction false} SumPermutation(a: seq<int>, b: seq<int>)
    requires multiset(a) == multiset(b)
    ensures Sum(a) == Sum(b)
    decreases |a|
  {
    if a != [] {
      var i := PermutationHead(a, b);
      var b' := b[..i] + b[i + 1..];
      SumPermutation(a[1..], b');
      SumRemove(b, i);
    } else {
      assert |b| == |multiset(b)|;
    }
  }
}
