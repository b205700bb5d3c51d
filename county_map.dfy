/** `update_map_figure`: the county map on the date chosen with the slider,
    drawn from the county rows whose TimeStamp contains that date's
    "YYYY/MM/DD" text. */
module CountyMap {

  import opened Wrappers
  import DateText
  import Selection

  /** One row of the county table (`df_county`). */
  datatype CountyRow = CountyRow(countyName: string, timeStamp: string, confirmed: int, population: int)

  function TimeStampOf(row: CountyRow): string { row.timeStamp }

  /** The column the map colours the counties by. */
  datatype Colouring =
    | TotalCases            // ConfirmedCovidCases
    | ShareOfPopulation     // CovidOverPopulation, cases over census population in percent
    | PerHundredThousand    // PopulationProportionCovidCases

  /** The map dropdown's value strings; "proportional2" is handled by the
      callback though the dropdown does not offer it. */
  function ParseColouring(dropdown: string): (c: Option<Colouring>)
    ensures c == Some(TotalCases) <==> dropdown == "total"
    ensures c == Some(ShareOfPopulation) <==> dropdown == "proportional"
    ensures c == Some(PerHundredThousand) <==> dropdown == "proportional2"
  {
    if dropdown == "total" then Some(TotalCases)
    else if dropdown == "proportional" then Some(ShareOfPopulation)
    else if dropdown == "proportional2" then Some(PerHundredThousand)
    else None
  }

  /** The map figure: the placeholder, a choropleth of the selected rows with
      its colour column and, for total cases, the top of its colour scale;
      or the error Python raises at `return fig` for an unknown dropdown
      value. The two proportional scales end at floating-point maxima and
      are not modelled (`rangeTop` is None). */
  datatype MapFigure =
    | NoData
    | Choropleth(rows: seq<CountyRow>, colouring: Colouring, rangeTop: Option<int>)
    | UnknownSelection

  /** `max(df_county["ConfirmedCovidCases"])` over a non-empty table. */
  function MaxConfirmed(rows: seq<CountyRow>): (m: int)
    requires |rows| > 0
    ensures forall i :: 0 <= i < |rows| ==> rows[i].confirmed <= m
    ensures exists i :: 0 <= i < |rows| && rows[i].confirmed == m
  {
    if |rows| == 1 then rows[0].confirmed
    else
      var rest := MaxConfirmed(rows[1..]);
      assert forall i :: 1 <= i < |rows| ==> rows[i] == rows[1..][i - 1];
      if rows[0].confirmed >= rest then rows[0].confirmed else rest
  }

  /** `update_map_figure(slider, dropdown)`, with the slider's date given as
      its "YYYY/MM/DD" text. */
  function MapFigureOf(table: seq<CountyRow>, dateText: string, dropdown: string): (f: MapFigure)
    ensures f.Choropleth? ==> ParseColouring(dropdown) == Some(f.colouring) && 0 < |f.rows| <= |table|
    ensures f == UnknownSelection ==> ParseColouring(dropdown).None?
  {
    var slice := Selection.Slice(table, TimeStampOf, dateText);
    if |slice| < 1 then NoData
    else match ParseColouring(dropdown)
      case None => UnknownSelection
      case Some(TotalCases) => Choropleth(slice, TotalCases, Some(MaxConfirmed(table)))
      case Some(c) => Choropleth(slice, c, None)
  }

  /** The placeholder is drawn exactly when no county row has the date. */
  lemma MapNoDataIff(table: seq<CountyRow>, dateText: string, dropdown: string)
    ensures MapFigureOf(table, dateText, dropdown) == NoData
            <==> forall i :: 0 <= i < |table| ==> !DateText.Contains(table[i].timeStamp, dateText)
  {
    Selection.SliceEmptyIff(table, TimeStampOf, dateText);
  }

  /** A drawn map shows exactly the county rows of the date, in table order,
      coloured by the column the dropdown names; for total cases the colour
      scale reaches the largest count of the whole table, so it covers every
      drawn county and is the same on every date. */
  lemma MapShowsTheDate(table: seq<CountyRow>, dateText: string, dropdown: string, r: CountyRow)
    requires MapFigureOf(table, dateText, dropdown).Choropleth?
    ensures var f := MapFigureOf(table, dateText, dropdown);
            && ParseColouring(dropdown) == Some(f.colouring)
            && (r in f.rows <==> r in table && DateText.Contains(r.timeStamp, dateText))
            && (f.colouring == TotalCases ==>
                  f.rangeTop == Some(MaxConfirmed(table))
                  && forall k :: 0 <= k < |f.rows| ==> f.rows[k].confirmed <= f.rangeTop.value)
  {
    var f := MapFigureOf(table, dateText, dropdown);
    Selection.SliceMember(table, TimeStampOf, dateText, r);
    forall k | 0 <= k < |f.rows|
      ensures f.rows[k] in table
    {
      Selection.SliceMember(table, TimeStampOf, dateText, f.rows[k]);
    }
  }

  /** Once some county row has the date, a known dropdown value draws the
      map in its colouring and an unknown one is the error. */
  lemma MapDrawnWhenMatched(table: seq<CountyRow>, dateText: string, dropdown: string)
    requires exists i :: 0 <= i < |table| && DateText.Contains(table[i].timeStamp, dateText)
    ensures ParseColouring(dropdown).Some? ==>
              MapFigureOf(table, dateText, dropdown).Choropleth?
              && MapFigureOf(table, dateText, dropdown).colouring == ParseColouring(dropdown).value
    ensures ParseColouring(dropdown).None? ==> MapFigureOf(table, dateText, dropdown) == UnknownSelection
  {
    Selection.SliceEmptyIff(table, TimeStampOf, dateText);
  }
}
