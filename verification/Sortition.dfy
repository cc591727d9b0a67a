/**
 The three searches of cpos/core/sortition.py: the number of winning tickets, the confirmation
 threshold and the fork threshold. `WinningTickets`, `ConfirmationBound` and `ForkBound` are the
 values searched for, defined by what they bound; the methods are the program's loops.
 */
module Sortition {
  import opened Wrappers
  import opened Bytes
  import opened Binomial

  // ---- run_sortition ----

  /** The digest read as a little-endian integer, scaled into [0, 1). */
  function HashFraction(d: Digest): (q: real)
    ensures 0.0 <= q < 1.0
  {
    PowerOfBits(|d|);
    FromLittleEndianBound(d);
    FractionBelowOne(FromLittleEndian(d), Power(2, |d| * 8));
    FromLittleEndian(d) as real / Power(2, |d| * 8) as real
  }

  /** Byte i of the digest, counted from the first, weighs 256^i / 256^32. */
  lemma DigestIsLittleEndian(d: Digest, i: nat)
    requires i < 32 && d[i] < 255
    ensures Power(256, 32) > 0
    ensures HashFraction(d[i := d[i] + 1]) - HashFraction(d) == Power(256, i) as real / Power(256, 32) as real
  {
    hide Power, FromLittleEndian;
    PowerOfBits(32);
    var e: Digest := d[i := d[i] + 1];
    ByteWeighs(d, i, d[i] + 1);
    assert FromLittleEndian(e) == FromLittleEndian(d) + Power(256, i);
    DifferenceOfQuotients(FromLittleEndian(e), FromLittleEndian(d), Power(256, 32));
  }

  lemma ZeroDigestIsZero(d: Digest)
    requires forall i :: 0 <= i < 32 ==> d[i] == 0
    ensures HashFraction(d) == 0.0
  {
    ZeroBytesAreZero(d);
    PowerOfBits(32);
    hide Power, FromLittleEndian;
  }

  lemma DifferenceOfQuotients(a: nat, b: nat, c: nat)
    requires c > 0 && a >= b
    ensures a as real / c as real - b as real / c as real == (a - b) as real / c as real
  {
  }

  /** The last byte is the most significant one. */
  lemma LastByteDecides(d: Digest)
    ensures d[31] as real / 256.0 <= HashFraction(d) < (d[31] as int + 1) as real / 256.0
  {
    PowerOfBits(32);
    PowerOfBits(31);
    SplitLastByte(d);
    FromLittleEndianBound(d[..31]);
    assert Power(256, 32) == 256 * Power(256, 31);
    hide Power, FromLittleEndian;
    LeadingDigit(FromLittleEndian(d[..31]), d[31] as int, Power(256, 31));
  }

  lemma SplitLastByte(d: Digest)
    ensures FromLittleEndian(d) == FromLittleEndian(d[..31]) + d[31] as int * Power(256, 31)
  {
    LastByteOf(d);
    assert d[..|d| - 1] == d[..31];
  }

  lemma {:induction false} LastByteOf(s: ByteString)
    requires s != []
    ensures FromLittleEndian(s) == FromLittleEndian(s[..|s| - 1]) + s[|s| - 1] as int * Power(256, |s| - 1)
  {
    var n := |s| - 1;
    if n == 0 {
      assert s[1..] == [] && s[..0] == [];
    } else {
      LastByteOf(s[1..]);
      assert s[1..][..n - 1] == s[..n][1..];
      var low, w := FromLittleEndian(s[1..][..n - 1]), Power(256, n - 1);
      assert FromLittleEndian(s[..n]) == s[0] as nat + 256 * low;
      assert Power(256, n) == 256 * w;
      hide Power, FromLittleEndian;
      Scaled(low, s[n] as int, w);
    }
  }

  lemma Scaled(low: nat, digit: nat, w: nat)
    ensures 256 * (low + digit * w) == 256 * low + digit * (256 * w)
  {
  }

  lemma LeadingDigit(low: nat, digit: nat, w: nat)
    requires low < w
    ensures 256 * w > 0
    ensures digit as real / 256.0 <= (low + digit * w) as real / (256 * w) as real < (digit + 1) as real / 256.0
  {
    var x := (low + digit * w) as real;
    assert (256 * w) as real == 256.0 * w as real;
    assert (digit * w) as real == digit as real * w as real;
    assert ((digit + 1) * w) as real == (digit + 1) as real * w as real;
    assert (digit * w) as real / (256 * w) as real == digit as real / 256.0;
    assert ((digit + 1) * w) as real / (256 * w) as real == (digit + 1) as real / 256.0;
    assert digit * w <= low + digit * w < (digit + 1) * w;
  }

  lemma FractionBelowOne(a: nat, b: nat)
    requires a < b
    ensures 0.0 <= a as real / b as real < 1.0
  {
  }

  /** i is the first ticket count whose cumulative probability reaches q. */
  ghost predicate IsTicketCount(q: real, stake: nat, p: real, i: nat) {
    q <= Cdf(stake, i, p) && forall j: nat :: j < i ==> Cdf(stake, j, p) < q
  }

  ghost function WinningTickets(q: real, stake: nat, p: real): (i: nat)
    requires q <= 1.0
    ensures i <= stake && IsTicketCount(q, stake, p, i)
  {
    FirstTicketCount(q, stake, p, 0)
  }

  ghost function FirstTicketCount(q: real, stake: nat, p: real, from: nat): (i: nat)
    requires q <= 1.0 && from <= stake
    requires forall j: nat :: j < from ==> Cdf(stake, j, p) < q
    ensures i <= stake && IsTicketCount(q, stake, p, i)
    decreases stake - from
  {
    CdfTotal(stake, stake, p);
    if q <= Cdf(stake, from, p) then from else FirstTicketCount(q, stake, p, from + 1)
  }

  lemma TicketCountIsUnique(q: real, stake: nat, p: real, i: nat, j: nat)
    requires IsTicketCount(q, stake, p, i) && IsTicketCount(q, stake, p, j)
    ensures i == j
  {
  }

  /**
   For every probability, in or out of [0, 1], the search ends within the stake and never asks
   for a coefficient out of range.
   */
  method RunSortition(sha: Hash, signedNodeHash: ByteString, stake: nat, p: real) returns (i: nat)
    ensures i == WinningTickets(HashFraction(sha(signedNodeHash)), stake, p)
  {
    var q := HashFraction(sha(signedNodeHash));
    CdfTotal(stake, stake, p);
    i := 0;
    var c := CumulativeBinomDist(stake, i, p);
    while q > c.value
      invariant i <= stake && c == Success(Cdf(stake, i, p))
      invariant forall j: nat :: j < i ==> Cdf(stake, j, p) < q
      decreases stake - i
    {
      i := i + 1;
      c := CumulativeBinomDist(stake, i, p);
    }
    TicketCountIsUnique(q, stake, p, i, WinningTickets(q, stake, p));
  }

  /** For a probability, the count is the one place where the distribution function crosses q. */
  lemma CrossingIsTheTicketCount(q: real, stake: nat, p: real, i: nat)
    requires 0.0 <= p <= 1.0 && q <= 1.0
    ensures i == WinningTickets(q, stake, p)
            <==> q <= Cdf(stake, i, p) && (i == 0 || Cdf(stake, i - 1, p) < q)
  {
    var w := WinningTickets(q, stake, p);
    if q <= Cdf(stake, i, p) && (i == 0 || Cdf(stake, i - 1, p) < q) {
      forall j: nat | j < i
        ensures Cdf(stake, j, p) < q
      {
        CdfGrowsWithK(stake, j, i - 1, p);
      }
      TicketCountIsUnique(q, stake, p, i, w);
    }
  }

  /** More stake or a higher probability never lowers the number of winning tickets. */
  lemma SortitionIsMonotone(q: real, stake: nat, p: real, stake': nat, p': real)
    requires q <= 1.0 && 0.0 <= p <= p' <= 1.0 && stake <= stake'
    ensures WinningTickets(q, stake, p) <= WinningTickets(q, stake', p')
  {
    var w, w' := WinningTickets(q, stake, p), WinningTickets(q, stake', p');
    if w' < w {
      CdfFallsWithN(stake, stake', w', p');
      CdfFallsWithP(stake, w', p, p');
      assert false;
    }
  }

  // ---- confirmation_threshold ----

  lemma ProductGrows(a: nat, b: nat, c: nat)
    requires a <= b
    ensures a * c <= b * c
  {
  }

  function Min(a: int, b: int): int {
    if a < b then a else b
  }

  function SuccessProbability(totalStake: nat, tau: nat): real
    requires totalStake >= 1
  {
    tau as real / totalStake as real
  }

  /** The chance of more than k successful draws in deltaR rounds. */
  ghost function Tail(totalStake: nat, tau: nat, deltaR: nat, k: int): real
    requires totalStake >= 1
  {
    1.0 - Cdf(totalStake * deltaR, k, SuccessProbability(totalStake, tau))
  }

  lemma ProbabilityInRange(totalStake: nat, tau: nat)
    requires totalStake >= 1 && tau <= totalStake
    ensures 0.0 <= SuccessProbability(totalStake, tau) <= 1.0
  {
  }

  lemma TailFallsWithK(totalStake: nat, tau: nat, deltaR: nat, j: int, k: int)
    requires totalStake >= 1 && tau <= totalStake && j <= k
    ensures Tail(totalStake, tau, deltaR, k) <= Tail(totalStake, tau, deltaR, j)
  {
    ProbabilityInRange(totalStake, tau);
    CdfGrowsWithK(totalStake * deltaR, j, k, SuccessProbability(totalStake, tau));
  }

  // The last draw count that s successes a round on both of two forks leave below the tail
  function ConfirmationCut(totalStake: nat, deltaR: nat, s: int): int {
    Min(2 * deltaR * s - 1, totalStake * deltaR)
  }

  ghost predicate ConfirmationHolds(totalStake: nat, tau: nat, deltaR: nat, threshold: real, s: int)
    requires totalStake >= 1
  {
    Tail(totalStake, tau, deltaR, ConfirmationCut(totalStake, deltaR, s)) <= threshold
  }

  ghost predicate IsConfirmationBound(totalStake: nat, tau: nat, deltaR: nat, threshold: real, s: nat)
    requires totalStake >= 1
  {
    && s >= 1
    && ConfirmationHolds(totalStake, tau, deltaR, threshold, s)
    && forall t: nat :: 1 <= t < s ==> !ConfirmationHolds(totalStake, tau, deltaR, threshold, t)
  }

  /** Beyond half the stake the cut takes in every draw, so nothing is left in the tail. */
  lemma ConfirmationHoldsAtTheTop(totalStake: nat, tau: nat, deltaR: nat, threshold: real)
    requires totalStake >= 1 && deltaR >= 1 && threshold >= 0.0
    ensures ConfirmationHolds(totalStake, tau, deltaR, threshold, totalStake / 2 + 1)
  {
    var s := totalStake / 2 + 1;
    assert totalStake + 1 <= 2 * s;
    assert totalStake * deltaR <= 2 * deltaR * s - 1 by {
      var d := 2 * s - totalStake;
      assert deltaR * d >= deltaR;
      assert 2 * deltaR * s == deltaR * (2 * s);
      assert deltaR * (2 * s) == deltaR * totalStake + deltaR * d;
    }
    CdfTotal(totalStake * deltaR, totalStake * deltaR, SuccessProbability(totalStake, tau));
  }

  ghost function ConfirmationBound(totalStake: nat, tau: nat, deltaR: nat, threshold: real): (s: nat)
    requires totalStake >= 1 && deltaR >= 1 && threshold >= 0.0
    ensures 1 <= s <= totalStake / 2 + 1
    ensures IsConfirmationBound(totalStake, tau, deltaR, threshold, s)
  {
    FirstConfirmation(totalStake, tau, deltaR, threshold, 1)
  }

  ghost function FirstConfirmation(totalStake: nat, tau: nat, deltaR: nat, threshold: real, from: nat): (s: nat)
    requires totalStake >= 1 && deltaR >= 1 && threshold >= 0.0
    requires 1 <= from <= totalStake / 2 + 1
    requires forall t: nat :: 1 <= t < from ==> !ConfirmationHolds(totalStake, tau, deltaR, threshold, t)
    ensures s <= totalStake / 2 + 1 && IsConfirmationBound(totalStake, tau, deltaR, threshold, s)
    decreases totalStake / 2 + 1 - from
  {
    ConfirmationHoldsAtTheTop(totalStake, tau, deltaR, threshold);
    if ConfirmationHolds(totalStake, tau, deltaR, threshold, from) then from
    else FirstConfirmation(totalStake, tau, deltaR, threshold, from + 1)
  }

  method ConfirmationThreshold(totalStake: nat, tau: nat, deltaR: nat, threshold: real) returns (s: nat)
    requires totalStake >= 1 && deltaR >= 1 && threshold >= 0.0
    ensures s == ConfirmationBound(totalStake, tau, deltaR, threshold)
  {
    s := 1;
    var p := SuccessProbability(totalStake, tau);
    while true
      invariant 1 <= s <= totalStake / 2 + 1
      invariant forall t: nat :: 1 <= t < s ==> !ConfirmationHolds(totalStake, tau, deltaR, threshold, t)
      decreases totalStake / 2 + 1 - s
    {
      var k := Min(2 * deltaR * s - 1, totalStake * deltaR);
      assert 2 * deltaR * s >= 2;
      assert totalStake * deltaR >= 1;
      var c := CumulativeBinomDist(totalStake * deltaR, k, p);
      var chance := 1.0 - c.value;
      if chance <= threshold {
        assert ConfirmationHolds(totalStake, tau, deltaR, threshold, s);
        break;
      }
      ConfirmationHoldsAtTheTop(totalStake, tau, deltaR, threshold);
      s := s + 1;
    }
  }

  /** The bound is a boundary: the condition holds exactly from it on. */
  lemma ConfirmationBoundIsSharp(totalStake: nat, tau: nat, deltaR: nat, threshold: real, s: nat)
    requires 1 <= totalStake && tau <= totalStake && deltaR >= 1 && threshold >= 0.0 && s >= 1
    ensures ConfirmationHolds(totalStake, tau, deltaR, threshold, s)
            <==> ConfirmationBound(totalStake, tau, deltaR, threshold) <= s
  {
    var b := ConfirmationBound(totalStake, tau, deltaR, threshold);
    if b <= s {
      ProductGrows(b, s, 2 * deltaR);
      assert b * (2 * deltaR) == 2 * deltaR * b && s * (2 * deltaR) == 2 * deltaR * s;
      TailFallsWithK(totalStake, tau, deltaR, ConfirmationCut(totalStake, deltaR, b),
                     ConfirmationCut(totalStake, deltaR, s));
    }
  }

  // ---- fork_threshold ----

  function ForkCut(totalStake: nat, deltaR: nat, a: int): int {
    Min(a * deltaR - 1, totalStake * deltaR)
  }

  ghost predicate ForkHolds(totalStake: nat, tau: nat, deltaR: nat, threshold: real, a: int)
    requires totalStake >= 1
  {
    Tail(totalStake, tau, deltaR, ForkCut(totalStake, deltaR, a)) >= threshold
  }

  ghost function ForkBound(totalStake: nat, tau: nat, deltaR: nat, threshold: real): (a: nat)
    requires totalStake >= 1 && threshold <= 1.0
    ensures a <= tau && ForkHolds(totalStake, tau, deltaR, threshold, a)
    ensures forall b: nat :: a < b <= tau ==> !ForkHolds(totalStake, tau, deltaR, threshold, b)
  {
    LastFork(totalStake, tau, deltaR, threshold, tau)
  }

  ghost function LastFork(totalStake: nat, tau: nat, deltaR: nat, threshold: real, from: nat): (a: nat)
    requires totalStake >= 1 && threshold <= 1.0 && from <= tau
    requires forall b: nat :: from < b <= tau ==> !ForkHolds(totalStake, tau, deltaR, threshold, b)
    ensures a <= tau && ForkHolds(totalStake, tau, deltaR, threshold, a)
    ensures forall b: nat :: a < b <= tau ==> !ForkHolds(totalStake, tau, deltaR, threshold, b)
    decreases from
  {
    if ForkHolds(totalStake, tau, deltaR, threshold, from) then from
    else (NothingBelowZero(totalStake, tau, deltaR); LastFork(totalStake, tau, deltaR, threshold, from - 1))
  }

  // With a = 0 the cut is -1, below every draw count
  lemma NothingBelowZero(totalStake: nat, tau: nat, deltaR: nat)
    requires totalStake >= 1
    ensures Tail(totalStake, tau, deltaR, ForkCut(totalStake, deltaR, 0)) == 1.0
  {
  }

  method ForkThreshold(totalStake: nat, tau: nat, deltaR: nat, threshold: real) returns (a: nat)
    requires totalStake >= 1 && threshold <= 1.0
    ensures a == ForkBound(totalStake, tau, deltaR, threshold)
  {
    a := tau;
    var p := SuccessProbability(totalStake, tau);
    while true
      invariant a <= tau
      invariant forall b: nat :: a < b <= tau ==> !ForkHolds(totalStake, tau, deltaR, threshold, b)
      decreases a
    {
      var k := Min(a * deltaR - 1, totalStake * deltaR);
      assert totalStake * deltaR >= 0;
      var c := CumulativeBinomDist(totalStake * deltaR, k, p);
      var chance := 1.0 - c.value;
      if chance >= threshold {
        assert ForkHolds(totalStake, tau, deltaR, threshold, a);
        break;
      }
      NothingBelowZero(totalStake, tau, deltaR);
      a := a - 1;
    }
  }

  /** Every rate up to the fork bound meets the threshold, and none between it and tau does. */
  lemma ForkBoundIsSharp(totalStake: nat, tau: nat, deltaR: nat, threshold: real, a: nat)
    requires 1 <= totalStake && tau <= totalStake && threshold <= 1.0 && a <= tau
    ensures ForkHolds(totalStake, tau, deltaR, threshold, a)
            <==> a <= ForkBound(totalStake, tau, deltaR, threshold)
  {
    var b := ForkBound(totalStake, tau, deltaR, threshold);
    if a <= b {
      ProductGrows(a, b, deltaR);
      TailFallsWithK(totalStake, tau, deltaR, ForkCut(totalStake, deltaR, a), ForkCut(totalStake, deltaR, b));
    }
  }

  // ---- What the two thresholds say ----

  /** The chance of at least m successes in n draws. */
  ghost function ChanceOfAtLeast(n: nat, m: nat, p: real): real
    decreases if m <= n then n + 1 - m else 0
  {
    if m > n then 0.0 else Pmf(n, m, p) + ChanceOfAtLeast(n, m + 1, p)
  }

  lemma {:induction false} ChanceIsTheTail(n: nat, m: nat, p: real)
    ensures ChanceOfAtLeast(n, m, p) == 1.0 - Cdf(n, m - 1, p)
    decreases if m <= n then n + 1 - m else 0
  {
    if m > n {
      CdfTotal(n, m - 1, p);
    } else {
      ChanceIsTheTail(n, m + 1, p);
      assert Cdf(n, m, p) == Cdf(n, m - 1, p) + Pmf(n, m, p);
    }
  }

  lemma CutAtTheEnd(n: nat, m: nat, p: real)
    ensures 1.0 - Cdf(n, Min(m - 1, n), p) == ChanceOfAtLeast(n, m, p)
  {
    ChanceIsTheTail(n, m, p);
    if m - 1 > n {
      CdfTotal(n, n, p);
      CdfTotal(n, m - 1, p);
    }
  }

  /**
   s reaches the confirmation bound exactly when, with success probability tau / totalStake, at least
   2 * deltaR * s successes in totalStake * deltaR draws are no likelier than the threshold.
   */
  lemma ConfirmationBoundMeans(totalStake: nat, tau: nat, deltaR: nat, threshold: real, s: nat)
    requires 1 <= totalStake && tau <= totalStake && deltaR >= 1 && threshold >= 0.0 && s >= 1
    ensures ConfirmationBound(totalStake, tau, deltaR, threshold) <= s <==>
            ChanceOfAtLeast(totalStake * deltaR, 2 * deltaR * s, tau as real / totalStake as real) <= threshold
  {
    ConfirmationBoundIsSharp(totalStake, tau, deltaR, threshold, s);
    hide ConfirmationBound, Cdf;
    CutAtTheEnd(totalStake * deltaR, 2 * deltaR * s, SuccessProbability(totalStake, tau));
  }

  /**
   a is within the fork bound exactly when at least a * deltaR successes are at least as likely as the
   threshold.
   */
  lemma ForkBoundMeans(totalStake: nat, tau: nat, deltaR: nat, threshold: real, a: nat)
    requires 1 <= totalStake && tau <= totalStake && threshold <= 1.0 && a <= tau
    ensures a <= ForkBound(totalStake, tau, deltaR, threshold) <==>
            ChanceOfAtLeast(totalStake * deltaR, a * deltaR, tau as real / totalStake as real) >= threshold
  {
    ForkBoundIsSharp(totalStake, tau, deltaR, threshold, a);
    hide ForkBound, Cdf;
    CutAtTheEnd(totalStake * deltaR, a * deltaR, SuccessProbability(totalStake, tau));
  }

  lemma CutsAgree(totalStake: nat, deltaR: nat, s: nat, a: nat)
    requires 2 * s <= a
    ensures ConfirmationCut(totalStake, deltaR, s) <= ForkCut(totalStake, deltaR, a)
  {
    ProductGrows(2 * s, a, deltaR);
    assert 2 * deltaR * s == (2 * s) * deltaR;
  }

  /**
   The two decisions of a round do not cross: whenever the confirmation risk is below the fork
   confidence, the fork bound stays under twice the confirmation bound.
   */
  lemma ForkBelowTwiceConfirmation(totalStake: nat, tau: nat, deltaR: nat, risk: real, confidence: real)
    requires 1 <= totalStake && tau <= totalStake && deltaR >= 1
    requires 0.0 <= risk < confidence <= 1.0
    ensures ForkBound(totalStake, tau, deltaR, confidence) < 2 * ConfirmationBound(totalStake, tau, deltaR, risk)
  {
    var a, s := ForkBound(totalStake, tau, deltaR, confidence), ConfirmationBound(totalStake, tau, deltaR, risk);
    if 2 * s <= a {
      CutsAgree(totalStake, deltaR, s, a);
      TailFallsWithK(totalStake, tau, deltaR, ConfirmationCut(totalStake, deltaR, s), ForkCut(totalStake, deltaR, a));
      assert false;
    }
  }
}
