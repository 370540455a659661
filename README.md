# LP cash flows and ledger totals

A Dafny model of the per-LP (limited partner) computations in the LP
investment dashboard's backend, `backend/app.py`:

- the **cash-flow builder** that turns an LP's PCAP (partner capital account
  statement) rows up to a report date into one signed cash flow per statement
  date, the series handed to the IRR computation;
- the **ledger totals** reported for the LP as of the report date (capital
  called, capital and income distributions, commitment, and the two derived
  values);
- the two load-time clean-ups: stripping thousands separators from amount
  strings, and mapping the lookup table's `Active` flag to a `Status` label.

Dates are integer day numbers and amounts are exact integers (for instance
cents), so sums are exact. Tables are sequences of row datatypes; a pandas
boolean mask is `Frames.Filter` and a column `.sum()` is `Frames.Sum` (0 for no
rows).

Modules, one per concern:

| file | module | models |
|---|---|---|
| `frames.dfy` | `Frames` | row masks and column sums, with their append laws |
| `strings.dfy` | `Strings` | `str.contains` as a literal substring test |
| `cleaning.dfy` | `Cleaning` | comma stripping and the status mapping |
| `pcap.dfy` | `Pcap` | PCAP rows, the LP/date selections, label totals, the sorted distinct dates and the latest date |
| `cashflows.dfy` | `Cashflows` | the cash-flow loop, as a method |
| `ledger.dfy` | `Ledger` | ledger rows and the totals dictionary |

The cash-flow loop updates a list and two variables step by step, so it is a
method (`BuildCashflows`) with loop invariants; its postcondition states the
rule for every period: the first period gives minus its "Capital Call" total
(distributions and ending balance never count there, even when it is the only
period), each middle period gives minus its "Capital Call" plus
"Distributions" totals, and the last period, when it is not the first, also
adds its "Ending Capital Balance" total. It also states that the dates are
exactly the LP's distinct statement dates up to the report date, strictly
ascending, and that the reported PCAP date is the last of them. The filters
and sums are functions, with lemmas saying which rows affect which total.

With no PCAP row for the LP up to the report date, the handler prints a
message and carries on (backend/app.py:53-55); the maximum of the empty date
column is then undefined, and formatting it fails when the response is built
(backend/app.py:130). The model instead returns an empty series and
`pcapReportDate == None`.

PCAP labels are classified by the three fixed substrings "Capital Call",
"Distributions" and "Ending Capital Balance" (backend/app.py:102-109).

## Model

| member | source | states |
|---|---|---|
| `Frames.Filter` | backend/app.py:52 | a boolean mask keeps exactly the rows that satisfy it, and never more rows than it was given |
| `Strings.Contains` | backend/app.py:102-109 | a label that starts with the pattern matches, and a matching label is at least as long as the pattern; `Strings.ContainsIff` gives its full meaning |
| `Frames.Sum` | backend/app.py:80-83 | a column sum of no rows is 0 and of one row is that row's amount; `Frames.SumAppend` makes it additive over concatenation |
| `Strings.ContainsIff` | backend/app.py:102-109 | the label test holds exactly when the pattern occurs at some position of the label |
| `Strings.ContainsExtended` | backend/app.py:106 | a label that contains a pattern still matches with any text added before or after it (lenient matching) |
| `Cleaning.StripCommas` | backend/app.py:26-27 | the stripped amount string contains no ',' |
| `Cleaning.StripCommasCounts` | backend/app.py:26-27 | stripping keeps every character other than ',' with its multiplicity, and the length drops by the number of commas |
| `Cleaning.StripCommasAppend` | backend/app.py:26-27 | stripping works piece by piece, so the remaining characters keep their order |
| `Cleaning.StripCommasNoComma` | backend/app.py:26-27 | a string without commas is unchanged |
| `Cleaning.StripCommasIdempotent` | backend/app.py:26-27 | stripping twice equals stripping once |
| `Cleaning.StatusLabel` | backend/app.py:22 | a code has a status exactly when it is 0 or 1, and 1 gives "Active", 0 gives "Not Active" |
| `Cleaning.StatusRoundTrip` | backend/app.py:22 | 1 maps to "Active" and 0 to "Not Active", every other code has no status, and the mapping is inverted by reading the label back |
| `Pcap.ForLp` | backend/app.py:52 | the LP's PCAP rows are exactly the rows of that LP dated on or before the report date |
| `Pcap.OnDate` | backend/app.py:98 | a period slice is exactly the rows of that statement date |
| `Pcap.PeriodMembers` | backend/app.py:98 | a period holds exactly the LP's rows of that date when the date is not after the report date, and nothing otherwise |
| `Pcap.FieldTotal` | backend/app.py:102-109 | no rows total 0, and a single row counts its amount exactly when its label contains the pattern; `Pcap.FieldTotalSnoc` and `Pcap.FieldTotalAppend` extend this to any rows |
| `Pcap.FieldTotalSnoc` | backend/app.py:102-109 | a row adds its amount to a label total if and only if its label contains the pattern; a row containing two patterns counts in both totals, one containing none in no total |
| `Pcap.FieldTotalAppend` | backend/app.py:106-109 | a label total is additive over any split of the rows |
| `Pcap.PeriodSnoc` | backend/app.py:98 | a row of another LP, after the report date or on another date leaves a period unchanged; a qualifying row is appended |
| `Pcap.PeriodTotal` | backend/app.py:98-109 | a date with no row of the LP on or before the report date has label total 0; `Pcap.PeriodTotalSnoc` gives the per-row rule (which rows count, and by how much) |
| `Pcap.PeriodTotalSnoc` | backend/app.py:98-109 | a row changes a period's label total exactly when it is the LP's, on that date, not after the report date, and its label contains the pattern |
| `Pcap.InsertDate` | backend/app.py:94 | inserting a date into a strictly ascending listing keeps it strictly ascending and adds exactly that date |
| `Pcap.SortedDates` | backend/app.py:94 | the period dates are strictly ascending (hence distinct) and are exactly the dates present among the rows |
| `Pcap.LpPeriodDates` | backend/app.py:94 | the LP's periods are exactly the dates of its rows dated on or before the report date |
| `Pcap.SortedListingUnique` | backend/app.py:94 | two strictly ascending listings of the same dates are equal, so the period order is determined by the rows |
| `Pcap.LatestDate` | backend/app.py:55 | the PCAP report date is absent for no rows, and otherwise is a date of some row and no row is later |
| `Pcap.LatestIsLastSortedDate` | backend/app.py:55 | the PCAP report date is the last of the sorted period dates (none when there are no periods) |
| `Cashflows.BuildCashflows` | backend/app.py:93-112 | one flow per period, periods strictly ascending; the first flow is minus the period's capital calls only; each middle flow is minus calls plus distributions; with two or more periods the last flow adds the ending capital balance; the ending balance is the last period's, and the PCAP report date is the last period |
| `Ledger.InScope` | backend/app.py:74-77 | the in-scope ledger rows are exactly the LP's rows dated on or before the report date |
| `Ledger.InScopeSnoc` | backend/app.py:74-77 | a further ledger row enters the in-scope rows exactly when it is the LP's and not after the report date |
| `Ledger.ActivityTotal` | backend/app.py:80-83 | an activity total is 0 when no row's `Activity` equals the name; `Ledger.ActivityTotalSnoc` gives the per-row rule |
| `Ledger.SubActivityTotal` | backend/app.py:81-82 | a sub-activity total is 0 when no row's `Sub Activity` equals the name; `Ledger.SubActivityTotalSnoc` gives the per-row rule |
| `Frames.FilterCounts` | backend/app.py:52 | a mask keeps every passing row as often as it occurs and drops every other row, so duplicate rows are summed twice |
| `Ledger.ActivityTotalSnoc` | backend/app.py:80-83 | a row adds its amount to an activity total exactly when its `Activity` equals the name (exact match, not substring) |
| `Ledger.SubActivityTotalSnoc` | backend/app.py:81-82 | a row adds its amount to a sub-activity total exactly when its `Sub Activity` equals the name |
| `Ledger.LedgerTotals` | backend/app.py:79-88 | total distribution is capital plus income distribution, and remaining capital is capital called minus capital distribution |
| `Ledger.LedgerTotalsSnoc` | backend/app.py:74-88 | a further ledger row changes the totals only when it is the LP's and not after the report date, and then adds exactly its contribution to each base and derived total |
| `Ledger.LedgerTotalsNoRows` | backend/app.py:74-84 | with no in-scope row every total is zero |

## Left out

- The IRR itself: the handler calls the external `xirr` routine on the dates
  and flows and turns any exception into a null rate (backend/app.py:114-119).
  That is floating-point root finding inside a library that is not part of
  this model; the model stops at the series it receives.
- Loading the CSV files, the Flask routes, CORS, JSON responses and the
  diagnostic prints (backend/app.py:1-18, 34-37, 124-138).
- The clock: when no report date is given the handler uses today's date
  (backend/app.py:47-49); the model takes `reportDate` as a parameter.
- Parsing amount strings to floats and date strings to dates, and formatting
  dates: amounts are exact integers and dates day numbers. Floating-point
  rounding of the sums is therefore not modelled.
- The profile and fund lookups with `fillna` and `[0]` indexing
  (backend/app.py:60-69) and the renaming of the fund table's columns
  (backend/app.py:23).
- Missing (NaN) labels or amounts in the tables: every row has a label string
  and an integer amount.
- `str.contains` treats its pattern as a regular expression; the three
  patterns used contain no metacharacter, so a literal substring test is the
  same.
- Cleaning.StatusLabel: the flag is an integer; a float column holding 1.0 or
  0.0, which pandas would also map, is not modelled.
- The React front end (`lp-investment-app/src/App.js`,
  `lp-investment-app/src/index.js`) is not part of this model.
