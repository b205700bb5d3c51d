# Ireland COVID-19 dashboard: the data layer, in Dafny

This project models the data-derivation and data-selection code of the Ireland
COVID-19 dashboard (`Project_corona_irl/ireland_dash.py`) and proves what that
code promises:

- **Estimated active cases** (`ActiveCases`). A loop turns the national
  table's running total of confirmed cases into the EstimatedActiveCases
  column. The first fourteen days copy the running total. Every later day
  takes the running total minus the one fourteen days earlier. The column is
  proved equal to "the cases confirmed in the last fourteen days". It is proved
  non-negative when the running total is a count that never goes down.
- **Slider marks** (`SliderMarks`). `getMarks` labels every position `i` of
  the date range with `i % Nth == 1`. Python's `%` and its ZeroDivisionError
  are modelled.
- **Date selection** (`DateText`, `Selection`). The map and breakdown
  callbacks keep the rows whose date text contains the requested date. The
  slice is proved to be exactly the matching rows in table order. Its last
  row (`.iloc[-1]`) is proved to be the table's last matching row.
- **Breakdown chart** (`Breakdown`). The fixed category → columns/labels table
  is reproduced. The values come from the last matching row. Any NaN value
  gives the "no data" placeholder. An unknown dropdown value is the error
  Python raises.
- **County map** (`CountyMap`). The map shows the county rows of the date.
  For total cases the colour scale ends at the largest count of the whole
  table.
- **The national table** (`NationalData`). The table is a class. Loading it
  derives the EstimatedActiveCases column. The totals callback rewrites its
  Date column in place with `datesplit`. On source-format dates that rewrite
  is proved idempotent, and it does not change any breakdown figure.

The slider's value enters the model as the date text that `strftime` makes
from it (`"YYYY/MM/DD"` for the map, `"MM/DD"` for the breakdown). The date
range of `getMarks` enters as a sequence of days, each with its slider value
and its label.

What the code does where a reader might expect otherwise:

- The hospitalisation likelihood divides each band's hospitalised count by
  that band's confirmed cases, not by its population. The first band divides
  HospitalisedAged5 by Aged1to4.
- A likelihood is NaN, and so gives "no data", for a missing cell and for 0 / 0.
  A positive count over zero cases is infinite, not NaN, and is drawn.
- An unrecognised dropdown value is not a "no data" outcome. Python raises
  UnboundLocalError, because `fig` or `data` is never assigned.
- `getMarks` ignores its `start` and `end` arguments and reads the module-wide
  date range.
- The labels are copied as written, including "Aged >1" for the Aged1 column
  and "Aged 1-4" for HospitalisedAged5.

## Model

| member | source | states |
|---|---|---|
| `ActiveCases.DeriveEstimatedActive` | Project_corona_irl/ireland_dash.py:122-136 | one entry per national row; entry i is total[i] for i < 14 and total[i] - total[i-14] from 14 on; the list equals the fourteen-day-window reading `EstimatedActive` |
| `ActiveCases.EstimatedActiveAt` | Project_corona_irl/ireland_dash.py:117-133 | "cases confirmed in the last fourteen days" equals the running total on the first fourteen days and the total minus the one fourteen days earlier afterwards |
| `ActiveCases.Telescopes` | Project_corona_irl/ireland_dash.py:117-121 | the cases confirmed over a run of days equal the difference of the running totals at its ends |
| `ActiveCases.EstimatedActiveNonNegative` | Project_corona_irl/ireland_dash.py:117-133 | a non-negative, never-decreasing running total gives non-negative estimates on every day |
| `SliderMarks.PyMod` | Project_corona_irl/ireland_dash.py:43 | Python's remainder: a - r is a multiple of b, and r lies in [0, b) for b > 0 and in (b, 0] for b < 0 |
| `SliderMarks.Collect` | Project_corona_irl/ireland_dash.py:41-48 | the dictionary built after k days has at most k keys, each mark drawn rotated |
| `SliderMarks.MarksOf` | Project_corona_irl/ireland_dash.py:36-50 | `getMarks` fails with ZeroDivisionError exactly when Nth is 0 and the range has a day; otherwise it gives at most one mark per day |
| `SliderMarks.GetMarks` | Project_corona_irl/ireland_dash.py:36-50 | the loop returns the dictionary the marks specification gives, or ZeroDivisionError when Nth is 0 and the range has a day |
| `SliderMarks.CollectKeys` | Project_corona_irl/ireland_dash.py:41-48 | a slider value carries a mark exactly when some selected day of the range has that value |
| `SliderMarks.CollectLabel` | Project_corona_irl/ireland_dash.py:44-48 | on a range with increasing slider values, each selected day's mark is its own date label with the rotated style |
| `SliderMarks.MarksForPositiveStep` | Project_corona_irl/ireland_dash.py:36-50 | for Nth > 0, the day at position i gets a mark if and only if i % Nth == 1, labelled with that day's date |
| `SliderMarks.SmallStepMarksNothing` | Project_corona_irl/ireland_dash.py:43 | Nth == 1 or Nth < 0 gives no marks at all |
| `SliderMarks.SliderMarksAsWritten` | Project_corona_irl/ireland_dash.py:339-345 | with the layout's step int(len/10), building the marks fails with ZeroDivisionError exactly on ranges of 1 to 9 days |
| `SliderMarks.MidRangeUnmarked` | Project_corona_irl/ireland_dash.py:339-345 | the layout's step on a range of 10 to 19 days gives an empty set of marks |
| `SliderMarks.SliderStep` | Project_corona_irl/ireland_dash.py:342-344 | the corrected step is at least 1 |
| `SliderMarks.SliderMarksCorrected` | Project_corona_irl/ireland_dash.py:36-50 | the corrected marks label exactly the days at positions congruent to 1 modulo the step, each with its own date; every day of a range under 20 days; the second day of any range longer than one day; and they equal the source's marks on ranges of 20 days or more |
| `DateText.Contains` | Project_corona_irl/ireland_dash.py:441-443 | the empty query is contained in every text, and a contained query is no longer than the text |
| `DateText.ContainsIff` | Project_corona_irl/ireland_dash.py:441-443 | the substring test holds exactly when the query occurs at some position of the date text |
| `DateText.BeforeSpace` | Project_corona_irl/ireland_dash.py:517 | `split(" ")[0]` is the longest space-free prefix, ending at the first space or at the end |
| `DateText.RemoveAll` | Project_corona_irl/ireland_dash.py:517 | `replace(pat, "")` yields no longer a string, drawn only from the characters of the input, and leaves a string shorter than the pattern alone |
| `DateText.DateSplit` | Project_corona_irl/ireland_dash.py:516-517 | the result of `datesplit` holds no space, is no longer than the date, and uses only the date's characters |
| `DateText.DateSplitOfSourceDate` | Project_corona_irl/ireland_dash.py:516-517 | on "2020/MM/DD HH:MM:SS+00", `datesplit` returns "MM/DD" |
| `DateText.DateSplitIdempotent` | Project_corona_irl/ireland_dash.py:516-519 | on source dates, `datesplit` applied twice equals `datesplit` applied once |
| `DateText.DateSplitNotIdempotentInGeneral` | Project_corona_irl/ireland_dash.py:516-517 | off the source format `datesplit` is not idempotent ("22020/020/" gives "2020/", then "") |
| `DateText.QueryAgreesAfterDateSplit` | Project_corona_irl/ireland_dash.py:576-578 | on a source date, an "MM/DD" query matches the raw date if and only if it matches the rewritten one, and exactly when it is the date's own month and day |
| `Selection.Slice` | Project_corona_irl/ireland_dash.py:441-443 | the slice is no longer than the table and every kept row's date contains the query |
| `Selection.SliceMember` | Project_corona_irl/ireland_dash.py:576-578 | a row is in the slice if and only if it is in the table and its date contains the query |
| `Selection.SliceAppend` | Project_corona_irl/ireland_dash.py:441-443 | the slice of two stretches of a table is the slice of the first followed by the slice of the second, so no row is reordered |
| `Selection.SliceIsKeptSubsequence` | Project_corona_irl/ireland_dash.py:576-578 | the slice's k-th row is the table's row at the k-th matching index, with the indices strictly increasing |
| `Selection.SliceEmptyIff` | Project_corona_irl/ireland_dash.py:446-447 | the slice is empty if and only if no row's date contains the query |
| `Selection.SliceLast` | Project_corona_irl/ireland_dash.py:587 | the last row of a non-empty slice is a matching table row after which no row matches |
| `NationalData.SplitDates` | Project_corona_irl/ireland_dash.py:519 | the rewrite replaces every row's Date by its `datesplit` and changes nothing else |
| `NationalData.SplitDatesIdempotent` | Project_corona_irl/ireland_dash.py:516-519 | on source dates, rewriting the Date column a second time leaves the table as the first rewrite left it |
| `NationalData.NationalTable.constructor` | Project_corona_irl/ireland_dash.py:122-136 | the loaded table carries an EstimatedActiveCases column of one entry per row, equal to the estimate of its totals |
| `NationalData.NationalTable.RewriteDates` | Project_corona_irl/ireland_dash.py:519 | the in-place rewrite sets the rows to their `datesplit` form, keeps the derived column, and keeps it consistent with the totals |
| `NationalData.RewriteTwice` | Project_corona_irl/ireland_dash.py:514-519 | two calls of the totals callback on a freshly loaded table leave the same rows as one |
| `Breakdown.ParseCategory` | Project_corona_irl/ireland_dash.py:585-655 | each of the five dropdown strings selects its category and no other string selects any |
| `Breakdown.Series` | Project_corona_irl/ireland_dash.py:585-693 | each category has one value entry per bar label, and only the hospitalisation-likelihood chart divides |
| `Breakdown.Labels` | Project_corona_irl/ireland_dash.py:592-704 | the bar labels of each category, as the dashboard writes them; their counts are fixed by `TableShape` |
| `Breakdown.Title` | Project_corona_irl/ireland_dash.py:593-705 | the chart titles; the two percentage charts, and only they, have titles starting with '%' |
| `Breakdown.TableShape` | Project_corona_irl/ireland_dash.py:585-705 | the five categories have 3, 3, 9, 8 and 8 value entries, as many as labels |
| `Breakdown.Evaluate` | Project_corona_irl/ireland_dash.py:657-708 | a count bar is present exactly when its cell is, and is that cell; a likelihood bar is present exactly when both cells are and they are not both 0, and is the percentage of the hospitalised count over the band's cases |
| `Breakdown.Values` | Project_corona_irl/ireland_dash.py:707-708 | the value list exists exactly when no bar is NaN, and then holds one value per entry, each that entry's value |
| `Breakdown.Chart` | Project_corona_irl/ireland_dash.py:585-713 | the error exactly for an unknown dropdown value; bars exactly when every value of the category is present, with its title, its labels and one value per label, each that entry's value |
| `Breakdown.BreakdownFigure` | Project_corona_irl/ireland_dash.py:574-715 | anything but the placeholder requires some row whose Date contains the date |
| `Breakdown.NoDataWithoutMatch` | Project_corona_irl/ireland_dash.py:576-582 | a date no row contains gives the placeholder for every dropdown value |
| `Breakdown.FigureFromLastMatch` | Project_corona_irl/ireland_dash.py:584-708 | with a matching row, an unknown dropdown value is an error; otherwise the placeholder appears exactly when a value of the last matching row is NaN, bars are drawn exactly when none is, and the bars carry the category's title, its labels and one value per label from that row |
| `Breakdown.LaterRowWins` | Project_corona_irl/ireland_dash.py:587 | of two rows for the same date, the later one's values are shown |
| `Breakdown.RewriteKeepsSelection` | Project_corona_irl/ireland_dash.py:576-578 | on source dates, an "MM/DD" query selects the same positions before and after the Date rewrite, and the cells do not change |
| `Breakdown.BreakdownUnchangedByRewrite` | Project_corona_irl/ireland_dash.py:519 | the breakdown figure for an "MM/DD" date is the same before and after the totals callback rewrites the Date column |
| `CountyMap.ParseColouring` | Project_corona_irl/ireland_dash.py:459-491 | "total", "proportional" and "proportional2" select their colour column and no other string selects any |
| `CountyMap.MaxConfirmed` | Project_corona_irl/ireland_dash.py:470 | the colour scale's top is a confirmed count of the table and no smaller than any other |
| `CountyMap.MapFigureOf` | Project_corona_irl/ireland_dash.py:436-508 | a drawn map is coloured by the column the dropdown names and holds at least one and at most all county rows; the error only for an unknown dropdown value |
| `CountyMap.MapDrawnWhenMatched` | Project_corona_irl/ireland_dash.py:441-508 | once some county row has the date, a known dropdown value draws the map in its colouring and an unknown one is the error |
| `CountyMap.MapNoDataIff` | Project_corona_irl/ireland_dash.py:441-447 | the map placeholder is drawn if and only if no county row's TimeStamp contains the date |
| `CountyMap.MapShowsTheDate` | Project_corona_irl/ireland_dash.py:441-508 | a drawn map holds exactly the county rows of the date, coloured by the chosen column; for total cases its scale covers every drawn county |

## Findings

| source | as written | input that shows it | evidently intended | confidence | as-written member | corrected member |
|---|---|---|---|---|---|---|
| Project_corona_irl/ireland_dash.py:342-344 | the slider's step is `int(len(daterange) / 10)`, which is 0 for short ranges, and `getMarks` then computes `i % 0` | a county table spanning 5 days: building the layout raises ZeroDivisionError | a step of at least 1 | high; not executed | `SliderMarks.SliderMarksAsWritten` | `SliderMarks.SliderMarksCorrected` |
| Project_corona_irl/ireland_dash.py:43 | `i % Nth == 1` never holds when the step is 1 | a county table spanning 15 days: the slider has no marks | "every Nth value": with a step of 1, every day is marked | medium; not executed | `SliderMarks.MidRangeUnmarked` | `SliderMarks.SliderMarksCorrected` |

The corrected marks (`SliderMarks.CorrectedMarks`) use the step `max(1, len / 10)`.
They select the positions with `i % step == 1 % step`. That is the source's
rule for every step above one, and every day for a step of one.

## Left out

- Project_corona_irl/plot_ireland.py: a one-off script that fetches a CSV, prints it and shows a map; it is I/O and rendering only.
- `dataframeLoader` and the module-level GeoJSON and CSV loads: file and network I/O. Both its branches read the local file, so the remote URL is never used. The tables enter the model as sequences of rows.
- The Dash layout, the callback wiring and the server: framework glue.
- Plotly figure construction, the content of `noDataGraph` and the text of `update_output`: rendering calls into libraries outside this model. "No data" is an abstract outcome.
- `unixTimeMillis`, `unixToDatetime` and `strftime`: they depend on the local time zone. The slider value enters as the date text it formats to. A day of the range enters as its slider value and label.
- `update_total_figure`'s three line charts, including the 3-day rolling mean: floating-point rendering. Only its in-place Date rewrite is modelled.
- Breakdown.Evaluate: a likelihood bar keeps its two operands instead of `round(part / whole * 100, 2)`, because that value is floating point.
- CountyMap.MapFigureOf: the transient CovidOverPopulation column (cases over census population, in percent) is not computed, and the two proportional colour scales have no modelled top, because both are floating point.
- CountyMap.CountyRow: PopulationProportionCovidCases is not a field, because it is a floating-point column used only for colouring.
- ActiveCases.DeriveEstimatedActive: totals are unbounded integers with no missing value. A NaN total, which would turn the column to floats, and 64-bit overflow are not modelled.
- DateText.Contains: pandas' `str.contains` matches a regular expression. The model matches a literal substring, which agrees for the query texts the dashboard builds (digits and '/').
