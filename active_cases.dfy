/** The "estimated active cases" column derived once from the national
    table's cumulative case counts: a case is taken to be resolved fourteen
    days after it was confirmed. */
module ActiveCases {

  /** Days after which a confirmed case is assumed resolved. */
  const Window: nat := 14

  /** Cases first confirmed on day `j` of the cumulative series `total`. */
  function NewCases(total: seq<int>, j: nat): int
    requires j < |total|
  {
    if j == 0 then total[0] else total[j] - total[j - 1]
  }

  /** Cases first confirmed on the days `lo` up to, not including, `hi`. */
  function ConfirmedBetween(total: seq<int>, lo: nat, hi: nat): int
    requires lo <= hi <= |total|
    decreases hi - lo
  {
    if lo == hi then 0 else NewCases(total, lo) + ConfirmedBetween(total, lo + 1, hi)
  }

  /** First day of the fourteen-day window that ends on day `i`, clipped at
      the start of the series. */
  function WindowStart(i: nat): nat
  {
    if i < Window then 0 else i - Window + 1
  }

  /** The reading of the column that the comment at ireland_dash.py:117-121
      gives: on every day, the cases confirmed during the last fourteen days
      (fewer at the start of the series). */
  function EstimatedActive(total: seq<int>): (active: seq<int>)
    ensures |active| == |total|
  {
    seq(|total|, i requires 0 <= i < |total| => ConfirmedBetween(total, WindowStart(i), i + 1))
  }

  /** The cases confirmed over a run of days add up to the difference of the
      cumulative totals at its ends. */
  lemma {:induction false} Telescopes(total: seq<int>, lo: nat, hi: nat)
    requires lo < hi <= |total|
    ensures ConfirmedBetween(total, lo, hi)
            == total[hi - 1] - (if lo == 0 then 0 else total[lo - 1])
    decreases hi - lo
  {
    if lo + 1 < hi {
      Telescopes(total, lo + 1, hi);
    }
  }

  /** The window reading agrees with "total minus the total fourteen days
      earlier", and with the running total itself on the first fourteen days. */
  lemma EstimatedActiveAt(total: seq<int>, i: nat)
    requires i < |total|
    ensures EstimatedActive(total)[i]
            == if i < Window then total[i] else total[i] - total[i - Window]
  {
    Telescopes(total, WindowStart(i), i + 1);
  }

  /** The loop of ireland_dash.py that fills `ealist`: the running total for
      the first fourteen days, afterwards the running total minus the one
      fourteen days earlier. */
  method DeriveEstimatedActive(total: seq<int>) returns (ealist: seq<int>)
    ensures |ealist| == |total|
    ensures forall i :: 0 <= i < |total| && i < Window ==> ealist[i] == total[i]
    ensures forall i :: Window <= i < |total| ==> ealist[i] == total[i] - total[i - Window]
    ensures ealist == EstimatedActive(total)
  {
    ealist := [];
    var i := 0;
    while i < |total|
      invariant 0 <= i <= |total|
      invariant |ealist| == i
      invariant forall k :: 0 <= k < i && k < Window ==> ealist[k] == total[k]
      invariant forall k :: Window <= k < i ==> ealist[k] == total[k] - total[k - Window]
    {
      if i < Window {
        ealist := ealist + [total[i]];
      } else {
        ealist := ealist + [total[i] - total[i - Window]];
      }
      i := i + 1;
    }
    forall k | 0 <= k < |total|
      ensures ealist[k] == EstimatedActive(total)[k]
    {
      EstimatedActiveAt(total, k);
    }
  }

  /** Running totals never go down. */
  predicate NonDecreasing(total: seq<int>)
  {
    forall j :: 0 < j < |total| ==> total[j - 1] <= total[j]
  }

  /** When the running total is a non-negative count that never goes down,
      every estimate of active cases is non-negative. */
  lemma {:induction false} EstimatedActiveNonNegative(total: seq<int>, i: nat)
    requires NonDecreasing(total)
    requires forall j :: 0 <= j < |total| ==> 0 <= total[j]
    requires i < |total|
    ensures EstimatedActive(total)[i] >= 0
  {
    var lo := WindowStart(i);
    NewCasesNonNegative(total, lo, i + 1);
  }

  lemma {:induction false} NewCasesNonNegative(total: seq<int>, lo: nat, hi: nat)
    requires NonDecreasing(total)
    requires |total| > 0 ==> 0 <= total[0]
    requires lo <= hi <= |total|
    ensures ConfirmedBetween(total, lo, hi) >= 0
    decreases hi - lo
  {
    if lo < hi {
      NewCasesNonNegative(total, lo + 1, hi);
    }
  }
}
