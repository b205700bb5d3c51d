/** The national daily table (`df_ireland`): one row per date with the
    running total of confirmed cases and the breakdown counts, the derived
    EstimatedActiveCases column, and the in-place rewrite of its Date column. */
module NationalData {

  import ActiveCases
  import DateText

  /** The breakdown columns of the national table that the dashboard reads. */
  datatype Column =
    | CommunityTransmission | CloseContact | TravelAbroad
    | Male | Female | Unknown
    | Aged1 | Aged1to4 | Aged5to14 | Aged15to24 | Aged25to34
    | Aged35to44 | Aged45to54 | Aged55to64 | Aged65up
    | HospitalisedAged5 | HospitalisedAged5to14 | HospitalisedAged15to24
    | HospitalisedAged25to34 | HospitalisedAged35to44 | HospitalisedAged45to54
    | HospitalisedAged55to64 | HospitalisedAged65up

  /** One row: its Date text, its TotalConfirmedCovidCases, and the breakdown
      cells that hold a number; a column absent from `counts` is a missing
      (NaN) cell on that date. */
  datatype NationalRow = NationalRow(date: string, totalConfirmed: int, counts: map<Column, int>)

  function DateOf(row: NationalRow): string { row.date }

  /** The TotalConfirmedCovidCases column. */
  function Totals(rows: seq<NationalRow>): (t: seq<int>)
    ensures |t| == |rows| && forall i :: 0 <= i < |rows| ==> t[i] == rows[i].totalConfirmed
  {
    seq(|rows|, i requires 0 <= i < |rows| => rows[i].totalConfirmed)
  }

  /** `df_ireland["Date"].apply(datesplit)`: every row's Date rewritten, all
      else untouched. */
  function SplitDates(rows: seq<NationalRow>): (r: seq<NationalRow>)
    ensures |r| == |rows|
    ensures forall i :: 0 <= i < |rows| ==> r[i] == rows[i].(date := DateText.DateSplit(rows[i].date))
  {
    seq(|rows|, i requires 0 <= i < |rows| => rows[i].(date := DateText.DateSplit(rows[i].date)))
  }

  /** The Date column as the data source writes it. */
  predicate SourceDates(rows: seq<NationalRow>)
  {
    forall i :: 0 <= i < |rows| ==> DateText.IsSourceDate(rows[i].date)
  }

  /** Rewriting the dates keeps the running totals. */
  lemma SplitDatesKeepsTotals(rows: seq<NationalRow>)
    ensures Totals(SplitDates(rows)) == Totals(rows)
  {
  }

  /** On source dates, rewriting a second time changes nothing: repeating the
      rewrite on every dropdown change gives the table the first rewrite gave. */
  lemma SplitDatesIdempotent(rows: seq<NationalRow>)
    requires SourceDates(rows)
    ensures SplitDates(SplitDates(rows)) == SplitDates(rows)
  {
    forall i | 0 <= i < |rows|
      ensures SplitDates(SplitDates(rows))[i] == SplitDates(rows)[i]
    {
      DateText.DateSplitIdempotent(rows[i].date);
    }
  }

  /** The national table as the running dashboard holds it. */
  class NationalTable {
    var rows: seq<NationalRow>
    /** The EstimatedActiveCases column. */
    var estimatedActive: seq<int>

    /** The derived column belongs to the current totals. */
    ghost predicate Valid()
      reads this
    {
      estimatedActive == ActiveCases.EstimatedActive(Totals(rows))
    }

    /** The table as loaded, with the EstimatedActiveCases column derived from
        it once (the module-level loop and the column assignment). */
    constructor (loaded: seq<NationalRow>)
      ensures Valid()
      ensures rows == loaded
      ensures |estimatedActive| == |loaded|
    {
      rows := loaded;
      var ealist := ActiveCases.DeriveEstimatedActive(Totals(loaded));
      estimatedActive := ealist;
    }

    /** `df_ireland["Date"] = df_ireland["Date"].apply(datesplit)`, run by the
        totals callback on every call. */
    method RewriteDates()
      requires Valid()
      modifies this
      ensures Valid()
      ensures rows == SplitDates(old(rows))
      ensures estimatedActive == old(estimatedActive)
    {
      SplitDatesKeepsTotals(rows);
      rows := SplitDates(rows);
    }
  }

  /** Two rewrites of a freshly loaded table leave it as one rewrite does. */
  method RewriteTwice(loaded: seq<NationalRow>) returns (once: seq<NationalRow>, twice: seq<NationalRow>)
    requires SourceDates(loaded)
    ensures once == twice
    ensures once == SplitDates(loaded)
  {
    var table := new NationalTable(loaded);
    table.RewriteDates();
    once := table.rows;
    table.RewriteDates();
    twice := table.rows;
    SplitDatesIdempotent(loaded);
  }
}
