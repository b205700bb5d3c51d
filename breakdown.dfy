/** `update_breakdown_figure`: the bar chart of one breakdown category on the
    date chosen with the slider, read from the last national row whose Date
    contains that date's "MM/DD" text. */
module Breakdown {

  import opened Wrappers
  import DateText
  import Selection
  import opened NationalData

  /** The options of the breakdown dropdown. */
  datatype Category = Transmission | Gender | CaseAge | HospitalAge | HospitalOdds

  /** The dropdown's value strings. */
  function ParseCategory(dropdown: string): (c: Option<Category>)
    ensures c == Some(Transmission) <==> dropdown == "transmission"
    ensures c == Some(Gender) <==> dropdown == "gender"
    ensures c == Some(CaseAge) <==> dropdown == "caseAge"
    ensures c == Some(HospitalAge) <==> dropdown == "hospitalAge"
    ensures c == Some(HospitalOdds) <==> dropdown == "hospitalOdds"
  {
    if dropdown == "transmission" then Some(Transmission)
    else if dropdown == "gender" then Some(Gender)
    else if dropdown == "caseAge" then Some(CaseAge)
    else if dropdown == "hospitalAge" then Some(HospitalAge)
    else if dropdown == "hospitalOdds" then Some(HospitalOdds)
    else None
  }

  /** Where one bar's value comes from: a cell, or `percenter` of a
      hospitalised count over the cases of the same age band. */
  datatype Entry = Count(column: Column) | Likelihood(hospitalised: Column, cases: Column)

  /** The category -> columns table: one entry per bar label. Only the
      likelihood chart divides, and it divides every band. */
  function Series(c: Category): (es: seq<Entry>)
    ensures |es| == |Labels(c)|
    ensures forall k :: 0 <= k < |es| ==> (es[k].Likelihood? <==> c == HospitalOdds)
  {
    match c
    case Transmission => [Count(CommunityTransmission), Count(CloseContact), Count(TravelAbroad)]
    case Gender => [Count(Male), Count(Female), Count(Unknown)]
    case CaseAge =>
      [Count(Aged1), Count(Aged1to4), Count(Aged5to14), Count(Aged15to24), Count(Aged25to34),
       Count(Aged35to44), Count(Aged45to54), Count(Aged55to64), Count(Aged65up)]
    case HospitalAge =>
      [Count(HospitalisedAged5), Count(HospitalisedAged5to14), Count(HospitalisedAged15to24),
       Count(HospitalisedAged25to34), Count(HospitalisedAged35to44), Count(HospitalisedAged45to54),
       Count(HospitalisedAged55to64), Count(HospitalisedAged65up)]
    case HospitalOdds =>
      [Likelihood(HospitalisedAged5, Aged1to4), Likelihood(HospitalisedAged5to14, Aged5to14),
       Likelihood(HospitalisedAged15to24, Aged15to24), Likelihood(HospitalisedAged25to34, Aged25to34),
       Likelihood(HospitalisedAged35to44, Aged35to44), Likelihood(HospitalisedAged45to54, Aged45to54),
       Likelihood(HospitalisedAged55to64, Aged55to64), Likelihood(HospitalisedAged65up, Aged65up)]
  }

  /** The bar labels, written as the dashboard writes them. */
  function Labels(c: Category): seq<string>
  {
    match c
    case Transmission => ["Community", "Close Contact", "Travel Abroad"]
    case Gender => ["Male", "Female", "Unknown"]
    case CaseAge =>
      ["Aged >1", "Aged 1-4", "Aged 5-14", "Aged 15-24", "Aged 25-34",
       "Aged 35-44", "Aged 45-54", "Aged 55-64", "Aged 65+"]
    case HospitalAge | HospitalOdds =>
      ["Aged 1-4", "Aged 5-14", "Aged 15-24", "Aged 25-34",
       "Aged 35-44", "Aged 45-54", "Aged 55-64", "Aged 65+"]
  }

  /** The chart titles; the two charts of percentages say so. */
  function Title(c: Category): (t: string)
    ensures |t| > 0 && (t[0] == '%' <==> c == Transmission || c == HospitalOdds)
  {
    match c
    case Transmission => "% Known Mode of Transmission"
    case Gender => "Gender"
    case CaseAge => "Case Age Profile"
    case HospitalAge => "Hospitalization Age Profile"
    case HospitalOdds => "% Likelihood of Hospitalization by Age"
  }

  /** Every category has one label per value column, 3, 3, 9, 8 and 8 of them. */
  lemma TableShape()
    ensures |Series(Transmission)| == |Labels(Transmission)| == 3
    ensures |Series(Gender)| == |Labels(Gender)| == 3
    ensures |Series(CaseAge)| == |Labels(CaseAge)| == 9
    ensures |Series(HospitalAge)| == |Labels(HospitalAge)| == 8
    ensures |Series(HospitalOdds)| == |Labels(HospitalOdds)| == 8
  {
  }

  /** A bar's value: a count, or the percentage `round(part / whole * 100, 2)`
      kept as its two operands (the rounding is floating point). */
  datatype Quantity = Number(n: int) | Percent(part: int, whole: int)

  /** The cell of `column` in a row with the cells `counts`, None when it is NaN. */
  function Cell(counts: map<Column, int>, column: Column): Option<int>
  {
    if column in counts then Some(counts[column]) else None
  }

  /** One bar's value on a row with the cells `counts`, None when it is NaN: a missing cell, or the
      0 / 0 that `percenter` computes when a band has no cases and no
      hospitalisations. A positive count over 0 is infinite, not NaN. */
  function Evaluate(counts: map<Column, int>, e: Entry): (v: Option<Quantity>)
    ensures e.Count? ==> (v.Some? <==> e.column in counts)
    ensures e.Count? && v.Some? ==> v.value == Number(counts[e.column])
    ensures e.Likelihood? ==> (v.Some? <==> e.hospitalised in counts && e.cases in counts
                                            && (counts[e.hospitalised] != 0 || counts[e.cases] != 0))
    ensures e.Likelihood? && v.Some? ==> v.value == Percent(counts[e.hospitalised], counts[e.cases])
  {
    match e
    case Count(c) =>
      (match Cell(counts, c) case None => None case Some(n) => Some(Number(n)))
    case Likelihood(h, a) =>
      match (Cell(counts, h), Cell(counts, a))
      case (Some(part), Some(whole)) =>
        if part == 0 && whole == 0 then None else Some(Percent(part, whole))
      case _ => None
  }

  /** The `data` list of one category on a row with the cells `counts`,
      None when `np.isnan(data).any()`. */
  function Values(counts: map<Column, int>, es: seq<Entry>): (vs: Option<seq<Quantity>>)
    ensures vs.Some? <==> forall k :: 0 <= k < |es| ==> Evaluate(counts, es[k]).Some?
    ensures vs.Some? ==> |vs.value| == |es|
                         && forall k :: 0 <= k < |es| ==> Some(vs.value[k]) == Evaluate(counts, es[k])
  {
    if es == [] then Some([])
    else
      match (Evaluate(counts, es[0]), Values(counts, es[1..]))
      case (Some(v), Some(rest)) => Some([v] + rest)
      case _ => None
  }

  /** The breakdown figure: a placeholder, a bar chart, or the error Python
      raises when the dropdown holds a value the chain of `elif` does not know
      (`data` is then never assigned). */
  datatype Figure = NoData | Bars(title: string, labels: seq<string>, values: seq<Quantity>) | UnknownSelection

  /** `update_breakdown_figure(dropdown, slider)`, with the slider's date given
      as its "MM/DD" text. */
  function BreakdownFigure(rows: seq<NationalRow>, dateText: string, dropdown: string): (f: Figure)
    ensures f != NoData ==> exists i :: 0 <= i < |rows| && DateText.Contains(rows[i].date, dateText)
  {
    var slice := Selection.Slice(rows, DateOf, dateText);
    Selection.SliceEmptyIff(rows, DateOf, dateText);
    if |slice| < 1 then NoData else Chart(slice[|slice| - 1].counts, dropdown)
  }

  /** The figure drawn from the cells of the selected row: the error exactly
      for an unknown dropdown value, bars exactly when the category's values
      are all present, titled and labelled for the category, one value per
      label. */
  function Chart(counts: map<Column, int>, dropdown: string): (f: Figure)
    ensures f == UnknownSelection <==> ParseCategory(dropdown).None?
    ensures ParseCategory(dropdown).Some? ==>
              var c := ParseCategory(dropdown).value;
              (f.Bars? <==> forall k :: 0 <= k < |Series(c)| ==> Evaluate(counts, Series(c)[k]).Some?)
              && (f.Bars? ==> f.title == Title(c) && f.labels == Labels(c) && |f.values| == |f.labels|
                              && forall k :: 0 <= k < |f.values| ==> Some(f.values[k]) == Evaluate(counts, Series(c)[k]))
  {
    match ParseCategory(dropdown)
    case None => UnknownSelection
    case Some(c) =>
      match Values(counts, Series(c))
      case None => NoData
      case Some(vs) => Bars(Title(c), Labels(c), vs)
  }

  /** A date no row's Date contains gives the placeholder, whatever the
      dropdown holds. */
  lemma NoDataWithoutMatch(rows: seq<NationalRow>, dateText: string, dropdown: string)
    requires forall i :: 0 <= i < |rows| ==> !DateText.Contains(rows[i].date, dateText)
    ensures BreakdownFigure(rows, dateText, dropdown) == NoData
  {
  }

  /** Once some row matches, the figure is decided by the last matching row
      alone: bars for a known category with every value present, the
      placeholder for a known category with a NaN value, and the error for an
      unknown dropdown value. The bars carry one value per label, each
      computed from that row. */
  lemma {:induction false} FigureFromLastMatch(rows: seq<NationalRow>, dateText: string, dropdown: string)
    returns (j: nat)
    requires exists i :: 0 <= i < |rows| && DateText.Contains(rows[i].date, dateText)
    ensures j < |rows| && DateText.Contains(rows[j].date, dateText)
    ensures forall k :: j < k < |rows| ==> !DateText.Contains(rows[k].date, dateText)
    ensures ParseCategory(dropdown).None? ==> BreakdownFigure(rows, dateText, dropdown) == UnknownSelection
    ensures ParseCategory(dropdown).Some? ==>
              var c := ParseCategory(dropdown).value;
              var f := BreakdownFigure(rows, dateText, dropdown);
              (f == NoData <==> exists k :: 0 <= k < |Series(c)| && Evaluate(rows[j].counts, Series(c)[k]).None?)
              && (f.Bars? <==> forall k :: 0 <= k < |Series(c)| ==> Evaluate(rows[j].counts, Series(c)[k]).Some?)
              && (f.Bars? ==> f.title == Title(c) && f.labels == Labels(c) && |f.values| == |f.labels|
                              && forall k :: 0 <= k < |f.values| ==> Some(f.values[k]) == Evaluate(rows[j].counts, Series(c)[k]))
  {
    var i :| 0 <= i < |rows| && DateText.Contains(rows[i].date, dateText);
    Selection.SliceEmptyIff(rows, DateOf, dateText);
    j := Selection.SliceLast(rows, DateOf, dateText);
  }

  /** Two rows for the same date: the later one's values are shown. */
  lemma LaterRowWins(earlier: NationalRow, later: NationalRow, dateText: string)
    requires DateText.Contains(earlier.date, dateText) && DateText.Contains(later.date, dateText)
    ensures forall dropdown :: BreakdownFigure([earlier, later], dateText, dropdown)
                               == BreakdownFigure([later], dateText, dropdown)
  {
  }

  /** Two tables whose rows agree, position by position, on being selected
      and on their cells give slices that agree in the same way. */
  lemma {:induction false} SlicesCorrespond(a: seq<NationalRow>, b: seq<NationalRow>, dateText: string)
    requires |a| == |b|
    requires forall i :: 0 <= i < |a| ==>
               (DateText.Contains(a[i].date, dateText) <==> DateText.Contains(b[i].date, dateText))
    requires forall i :: 0 <= i < |a| ==> a[i].counts == b[i].counts
    ensures |Selection.Slice(a, DateOf, dateText)| == |Selection.Slice(b, DateOf, dateText)|
    ensures forall k :: 0 <= k < |Selection.Slice(a, DateOf, dateText)| ==>
              Selection.Slice(a, DateOf, dateText)[k].counts == Selection.Slice(b, DateOf, dateText)[k].counts
  {
    if a != [] {
      var n := |a| - 1;
      SlicesCorrespond(a[..n], b[..n], dateText);
    }
  }

  /** On source dates, a "MM/DD" query selects the same positions before and
      after the Date rewrite, which touches no cell. */
  lemma RewriteKeepsSelection(rows: seq<NationalRow>, dateText: string)
    requires SourceDates(rows) && DateText.IsMonthDay(dateText)
    ensures |SplitDates(rows)| == |rows|
    ensures forall i :: 0 <= i < |rows| ==>
              (DateText.Contains(SplitDates(rows)[i].date, dateText) <==> DateText.Contains(rows[i].date, dateText))
    ensures forall i :: 0 <= i < |rows| ==> SplitDates(rows)[i].counts == rows[i].counts
  {
    forall i | 0 <= i < |rows|
      ensures DateText.Contains(SplitDates(rows)[i].date, dateText) <==> DateText.Contains(rows[i].date, dateText)
    {
      DateText.QueryAgreesAfterDateSplit(rows[i].date, dateText);
    }
  }

  /** The breakdown figure depends on the table only through the number of
      selected rows and the cells of the last one. */
  lemma SameLastSameFigure(a: seq<NationalRow>, b: seq<NationalRow>, dateText: string, dropdown: string)
    requires |Selection.Slice(a, DateOf, dateText)| == |Selection.Slice(b, DateOf, dateText)|
    requires var sa, sb := Selection.Slice(a, DateOf, dateText), Selection.Slice(b, DateOf, dateText);
             |sa| > 0 ==> sa[|sa| - 1].counts == sb[|sb| - 1].counts
    ensures BreakdownFigure(a, dateText, dropdown) == BreakdownFigure(b, dateText, dropdown)
  {
  }

  /** The totals callback rewrites every source Date "2020/MM/DD ..." to
      "MM/DD"; asking for a "MM/DD" date gives the same figure before and
      after that rewrite. */
  lemma BreakdownUnchangedByRewrite(rows: seq<NationalRow>, dateText: string, dropdown: string)
    requires SourceDates(rows) && DateText.IsMonthDay(dateText)
    ensures BreakdownFigure(SplitDates(rows), dateText, dropdown) == BreakdownFigure(rows, dateText, dropdown)
  {
    RewriteKeepsSelection(rows, dateText);
    SlicesCorrespond(SplitDates(rows), rows, dateText);
    SameLastSameFigure(SplitDates(rows), rows, dateText, dropdown);
  }
}
