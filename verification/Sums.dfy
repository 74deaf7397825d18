/** Finite sums over day ranges and over sequences, and the laws the analytics proofs use. */
module Sums {

  /** f(lo) + ... + f(hi), zero when the range is empty. */
  ghost function SumDays(f: int -> real, lo: int, hi: int): real
    decreases hi - lo + 1
  {
    if hi < lo then 0.0 else SumDays(f, lo, hi - 1) + f(hi)
  }

  function SumSeq(s: seq<real>): real {
    if s == [] then 0.0 else SumSeq(s[..|s| - 1]) + s[|s| - 1]
  }

  lemma {:induction false} SumDaysAdds(f: int -> real, g: int -> real, h: int -> real, lo: int, hi: int)
    requires forall d :: lo <= d <= hi ==> h(d) == f(d) + g(d)
    ensures SumDays(h, lo, hi) == SumDays(f, lo, hi) + SumDays(g, lo, hi)
    decreases hi - lo + 1
  {
    if lo <= hi {
      SumDaysAdds(f, g, h, lo, hi - 1);
    }
  }

  /** How many days of [a, b] lie at or before hi. */
  function Covered(a: int, b: int, hi: int): int {
    if hi < a then 0 else (if hi < b then hi else b) - a + 1
  }

  /** A function that is constant on [a, b] and zero elsewhere sums to the covered length times the constant. */
  lemma {:induction false} SumDaysOfBlock(f: int -> real, c: real, a: int, b: int, lo: int, hi: int)
    requires forall d :: lo <= d <= hi ==> f(d) == if a <= d <= b then c else 0.0
    requires lo <= a <= b + 1
    ensures SumDays(f, lo, hi) == c * Covered(a, b, hi) as real
    decreases hi - lo + 1
  {
    if lo <= hi {
      SumDaysOfBlock(f, c, a, b, lo, hi - 1);
      OneMoreDay(c, Covered(a, b, hi - 1));
    }
  }

  lemma OneMoreDay(c: real, n: int)
    ensures c * (n + 1) as real == c * n as real + c
  {
  }

  lemma {:induction false} SumDaysSame(f: int -> real, g: int -> real, lo: int, hi: int)
    requires forall d :: lo <= d <= hi ==> f(d) == g(d)
    ensures SumDays(f, lo, hi) == SumDays(g, lo, hi)
    decreases hi - lo + 1
  {
    if lo <= hi {
      SumDaysSame(f, g, lo, hi - 1);
    }
  }

  /** Reading a day function off a contiguous range and summing the list is summing over the days. */
  lemma {:induction false} SumSeqIsSumDays(s: seq<real>, f: int -> real, lo: int)
    requires forall i :: 0 <= i < |s| ==> s[i] == f(lo + i)
    ensures SumSeq(s) == SumDays(f, lo, lo + |s| - 1)
    decreases |s|
  {
    if s != [] {
      SumSeqIsSumDays(s[..|s| - 1], f, lo);
    }
  }

  lemma {:induction false} SumSeqAppend(a: seq<real>, b: seq<real>)
    ensures SumSeq(a + b) == SumSeq(a) + SumSeq(b)
    decreases |b|
  {
    if b == [] {
      assert a + b == a;
    } else {
      var n := |b| - 1;
      assert (a + b)[..|a| + n] == a + b[..n];
      SumSeqAppend(a, b[..n]);
    }
  }
}
