/** `getMarks`: the tick labels of the map's date slider. It walks the date
    range of the county table and labels every position whose index leaves
    remainder 1 when divided by the step `Nth`. */
module SliderMarks {

  /** One day of the slider's date range: its slider value (the Unix time
      that `unixTimeMillis` gives) and its "%m-%d" text. */
  datatype Day = Day(stamp: int, text: string)

  /** The mark shown under one slider position. */
  datatype Mark = Mark(text: string, style: string)

  /** Every mark is drawn rotated by 45 degrees. */
  const Rotated: string := "rotate(45deg)"

  /** What `getMarks` returns, or the ZeroDivisionError that `i % 0` raises. */
  datatype MarksOutcome = Marks(marks: map<int, Mark>) | ZeroDivisionError

  /** Python's `a % b`: the remainder of a floor division, so that
      `a == (a // b) * b + r`, whose sign is that of `b`. */
  function PyMod(a: int, b: int): (r: int)
    requires b != 0
    ensures exists q :: a == q * b + r
    ensures b > 0 ==> 0 <= r < b
    ensures b < 0 ==> b < r <= 0
  {
    var m := a % b;
    assert a == (a / b) * b + m;
    if b < 0 && m != 0 then
      assert a == (a / b - 1) * b + (m + b);
      m + b
    else m
  }

  /** The positions `getMarks` labels for the step `nth`. */
  function SourceSelection(nth: int): int -> bool
  {
    i => nth != 0 && PyMod(i, nth) == 1
  }

  /** The dictionary the loop has built after the first `k` days: each
      selected day writes its mark under its slider value, a later day
      overwriting an earlier one with the same value. */
  function Collect(days: seq<Day>, selected: int -> bool, k: nat): (m: map<int, Mark>)
    requires k <= |days|
    ensures |m| <= k
    ensures forall stamp :: stamp in m ==> m[stamp].style == Rotated
  {
    if k == 0 then map[]
    else
      var m := Collect(days, selected, k - 1);
      if selected(k - 1) then m[days[k - 1].stamp := Mark(days[k - 1].text, Rotated)] else m
  }

  /** `getMarks(start, end, Nth)` over the date range `days`. */
  function MarksOf(days: seq<Day>, nth: int): (r: MarksOutcome)
    ensures r == ZeroDivisionError <==> nth == 0 && |days| > 0
    ensures r.Marks? ==> |r.marks| <= |days|
  {
    if |days| > 0 && nth == 0 then ZeroDivisionError
    else Marks(Collect(days, SourceSelection(nth), |days|))
  }

  /** The loop of `getMarks`. The source reads the module-wide date range and
      ignores its `start` and `end` arguments; here the range is the
      argument `days`. */
  method GetMarks(days: seq<Day>, nth: int) returns (r: MarksOutcome)
    ensures r == MarksOf(days, nth)
  {
    var result: map<int, Mark> := map[];
    var i := 0;
    while i < |days|
      invariant 0 <= i <= |days|
      invariant i > 0 ==> nth != 0
      invariant result == Collect(days, SourceSelection(nth), i)
    {
      if nth == 0 {
        return ZeroDivisionError;
      }
      if PyMod(i, nth) == 1 {
        result := result[days[i].stamp := Mark(days[i].text, Rotated)];
      }
      i := i + 1;
    }
    r := Marks(result);
  }

  /** A slider value carries a mark exactly when some selected day has it. */
  lemma {:induction false} CollectKeys(days: seq<Day>, selected: int -> bool, k: nat, stamp: int)
    requires k <= |days|
    ensures stamp in Collect(days, selected, k)
            <==> exists i :: 0 <= i < k && selected(i) && days[i].stamp == stamp
  {
    if k > 0 {
      CollectKeys(days, selected, k - 1, stamp);
    }
  }

  /** The slider values of the range strictly increase, as `pd.date_range`
      with a daily step gives them. */
  predicate Increasing(days: seq<Day>)
  {
    forall i, j :: 0 <= i < j < |days| ==> days[i].stamp < days[j].stamp
  }

  /** On an increasing range, a selected day's mark is its own label. */
  lemma {:induction false} CollectLabel(days: seq<Day>, selected: int -> bool, k: nat, i: nat)
    requires k <= |days| && Increasing(days)
    requires i < k && selected(i)
    ensures days[i].stamp in Collect(days, selected, k)
    ensures Collect(days, selected, k)[days[i].stamp] == Mark(days[i].text, Rotated)
  {
    if i < k - 1 {
      CollectLabel(days, selected, k - 1, i);
    }
  }

  /** What `getMarks` promises for a positive step: a mark for exactly the
      days at positions with remainder 1, each labelled with its date. */
  lemma MarksForPositiveStep(days: seq<Day>, nth: int, i: nat)
    requires nth > 0 && Increasing(days) && i < |days|
    ensures MarksOf(days, nth).Marks?
    ensures days[i].stamp in MarksOf(days, nth).marks <==> i % nth == 1
    ensures i % nth == 1 ==> MarksOf(days, nth).marks[days[i].stamp] == Mark(days[i].text, Rotated)
  {
    CollectKeys(days, SourceSelection(nth), |days|, days[i].stamp);
    if i % nth == 1 {
      CollectLabel(days, SourceSelection(nth), |days|, i);
    }
  }

  /** A step of at most 1 (negative, or 1 itself) leaves every remainder at
      or below 0, so no day gets a mark. */
  lemma SmallStepMarksNothing(days: seq<Day>, nth: int)
    requires nth != 0 && nth <= 1
    ensures MarksOf(days, nth) == Marks(map[])
  {
    var m := Collect(days, SourceSelection(nth), |days|);
    forall stamp | stamp in m
      ensures false
    {
      CollectKeys(days, SourceSelection(nth), |days|, stamp);
    }
    assert m.Keys == {};
  }

  /** The slider's marks as the layout asks for them: the step is
      `int(len(daterange) / 10)`, so a range of one to nine days gives the
      step 0 and building the layout fails with ZeroDivisionError. */
  function SliderMarksAsWritten(days: seq<Day>): (r: MarksOutcome)
    ensures r == ZeroDivisionError <==> 1 <= |days| < 10
  {
    MarksOf(days, |days| / 10)
  }

  /** A range of ten to nineteen days gives the step 1, and since `i % 1` is
      always 0 the slider gets no marks at all. */
  lemma MidRangeUnmarked(days: seq<Day>)
    requires 10 <= |days| < 20
    ensures SliderMarksAsWritten(days) == Marks(map[])
  {
    SmallStepMarksNothing(days, 1);
  }

  /** The step "every Nth day" evidently intends: at least one. */
  function SliderStep(n: nat): (step: nat)
    ensures step >= 1
  {
    if n / 10 < 1 then 1 else n / 10
  }

  /** Positions "every `step` days, starting from the second": remainder
      `1 % step`, which is 1 for every step above one. */
  function EveryNth(step: nat): int -> bool
    requires step >= 1
  {
    i => i % step == 1 % step
  }

  /** The slider marks with the step and selection corrected. */
  function CorrectedMarks(days: seq<Day>): map<int, Mark>
  {
    var step := SliderStep(|days|);
    Collect(days, EveryNth(step), |days|)
  }

  /** The corrected marks label exactly the days at positions congruent to
      1 modulo the step, each with its own date: every day of a range
      shorter than twenty days (step 1), and the second day of any range
      longer than one day. On ranges of twenty days or more, where the
      source's step is already at least 2, they equal the source's marks. */
  lemma SliderMarksCorrected(days: seq<Day>)
    requires Increasing(days)
    ensures forall i :: 0 <= i < |days| ==>
              (days[i].stamp in CorrectedMarks(days) <==> i % SliderStep(|days|) == 1 % SliderStep(|days|))
    ensures forall i :: 0 <= i < |days| && i % SliderStep(|days|) == 1 % SliderStep(|days|) ==>
              days[i].stamp in CorrectedMarks(days)
              && CorrectedMarks(days)[days[i].stamp] == Mark(days[i].text, Rotated)
    ensures |days| < 20 ==> forall i :: 0 <= i < |days| ==> days[i].stamp in CorrectedMarks(days)
    ensures |days| >= 2 ==> days[1].stamp in CorrectedMarks(days)
    ensures |days| >= 20 ==> SliderMarksAsWritten(days) == Marks(CorrectedMarks(days))
  {
    var step := SliderStep(|days|);
    forall i | 0 <= i < |days|
      ensures days[i].stamp in CorrectedMarks(days) <==> i % step == 1 % step
      ensures i % step == 1 % step ==> CorrectedMarks(days)[days[i].stamp] == Mark(days[i].text, Rotated)
    {
      CollectKeys(days, EveryNth(step), |days|, days[i].stamp);
      if i % step == 1 % step {
        CollectLabel(days, EveryNth(step), |days|, i);
      }
    }
    if |days| < 20 {
      assert step == 1;
    }
    if |days| >= 20 {
      SameSelectionSameMarks(days, SourceSelection(|days| / 10), EveryNth(step), |days|);
    }
  }

  /** Two selections that agree on every position of the range collect the
      same marks. */
  lemma {:induction false} SameSelectionSameMarks(days: seq<Day>, s1: int -> bool, s2: int -> bool, k: nat)
    requires k <= |days|
    requires forall i :: 0 <= i < k ==> s1(i) == s2(i)
    ensures Collect(days, s1, k) == Collect(days, s2, k)
  {
    if k > 0 {
      SameSelectionSameMarks(days, s1, s2, k - 1);
    }
  }
}
