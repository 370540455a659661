/** The PCAP (partner capital account statement) table: one row per LP,
    statement date, field label and amount. Dates are day numbers and amounts
    are exact integers (for instance cents). This module holds the row
    selections and sums that the cash-flow builder is made of. */
module Pcap {
  import opened Frames
  import opened Strings

  datatype PcapRow = PcapRow(lp: string, date: int, field: string, amount: int)

  const CapitalCall := "Capital Call"
  const Distributions := "Distributions"
  const EndingCapitalBalance := "Ending Capital Balance"

  function Amount(r: PcapRow): int { r.amount }

  /** Mask: the row belongs to `lp` and is dated on or before `reportDate`. */
  function IsLpRowAsOf(lp: string, reportDate: int): PcapRow -> bool
  {
    (r: PcapRow) => r.lp == lp && r.date <= reportDate
  }

  /** Mask: the row is dated `date`. */
  function IsOnDate(date: int): PcapRow -> bool
  {
    (r: PcapRow) => r.date == date
  }

  /** Mask: the row's field label contains `pattern` as a substring. */
  function FieldContains(pattern: string): PcapRow -> bool
  {
    (r: PcapRow) => Contains(r.field, pattern)
  }

  /** `pcaps_for_lp`: the LP's rows dated on or before the report date. */
  function ForLp(pcap: seq<PcapRow>, lp: string, reportDate: int): (rows: seq<PcapRow>)
    ensures forall r :: r in rows <==> r in pcap && r.lp == lp && r.date <= reportDate
  {
    Filter(pcap, IsLpRowAsOf(lp, reportDate))
  }

  /** `pcap_slice`: the rows of one statement date. */
  function OnDate(rows: seq<PcapRow>, date: int): (slice: seq<PcapRow>)
    ensures forall r :: r in slice <==> r in rows && r.date == date
  {
    Filter(rows, IsOnDate(date))
  }

  /** Sum of the amounts of the rows whose field label contains `pattern`. */
  function FieldTotal(rows: seq<PcapRow>, pattern: string): (total: int)
    ensures rows == [] ==> total == 0
    ensures |rows| == 1 ==>
      total == if Contains(rows[0].field, pattern) then rows[0].amount else 0
  {
    Sum(Filter(rows, FieldContains(pattern)), Amount)
  }

  /** The LP's slice for one statement date, as the builder selects it. */
  function Period(pcap: seq<PcapRow>, lp: string, reportDate: int, date: int): seq<PcapRow>
  {
    OnDate(ForLp(pcap, lp, reportDate), date)
  }

  /** A period holds exactly the LP's rows of that date, when the date is on
      or before the report date, and no row otherwise. */
  lemma PeriodMembers(pcap: seq<PcapRow>, lp: string, reportDate: int, date: int)
    ensures forall r :: r in Period(pcap, lp, reportDate, date) <==>
      r in pcap && r.lp == lp && r.date == date && date <= reportDate
  {
  }

  /** The amount total of one label pattern in one of the LP's periods. */
  function PeriodTotal(pcap: seq<PcapRow>, lp: string, reportDate: int, date: int, pattern: string): (total: int)
    ensures Period(pcap, lp, reportDate, date) == [] ==> total == 0
  {
    FieldTotal(Period(pcap, lp, reportDate, date), pattern)
  }

  /** A row counts toward a label's total iff its field contains the label:
      appending one row adds its amount exactly in that case. */
  lemma FieldTotalSnoc(rows: seq<PcapRow>, r: PcapRow, pattern: string)
    ensures FieldTotal(rows + [r], pattern)
         == FieldTotal(rows, pattern) + (if Contains(r.field, pattern) then r.amount else 0)
  {
    MaskedSumSnoc(rows, r, FieldContains(pattern), Amount);
  }

  /** Label totals are additive over any split of the rows. */
  lemma FieldTotalAppend(a: seq<PcapRow>, b: seq<PcapRow>, pattern: string)
    ensures FieldTotal(a + b, pattern) == FieldTotal(a, pattern) + FieldTotal(b, pattern)
  {
    FilterAppend(a, b, FieldContains(pattern));
    SumAppend(Filter(a, FieldContains(pattern)), Filter(b, FieldContains(pattern)), Amount);
  }

  /** A row of another LP, or dated after the report date, or on another
      statement date, leaves a period unchanged; a row that qualifies is
      appended to it. */
  lemma PeriodSnoc(pcap: seq<PcapRow>, r: PcapRow, lp: string, reportDate: int, date: int)
    ensures Period(pcap + [r], lp, reportDate, date)
         == Period(pcap, lp, reportDate, date)
            + (if r.lp == lp && r.date <= reportDate && r.date == date then [r] else [])
  {
    FilterAppend(pcap, [r], IsLpRowAsOf(lp, reportDate));
    FilterAppend(ForLp(pcap, lp, reportDate), Filter([r], IsLpRowAsOf(lp, reportDate)), IsOnDate(date));
  }

  /** A row changes a period's label total exactly when it is the LP's, is
      dated that period's date, on or before the report date, and its label
      contains the pattern; it then adds its amount. */
  lemma PeriodTotalSnoc(pcap: seq<PcapRow>, r: PcapRow, lp: string, reportDate: int, date: int, pattern: string)
    ensures PeriodTotal(pcap + [r], lp, reportDate, date, pattern)
         == PeriodTotal(pcap, lp, reportDate, date, pattern)
            + (if r.lp == lp && r.date <= reportDate && r.date == date && Contains(r.field, pattern)
               then r.amount else 0)
  {
    PeriodSnoc(pcap, r, lp, reportDate, date);
    if r.lp == lp && r.date <= reportDate && r.date == date {
      FieldTotalSnoc(Period(pcap, lp, reportDate, date), r, pattern);
    } else {
      assert Period(pcap + [r], lp, reportDate, date) == Period(pcap, lp, reportDate, date);
    }
  }

  /** The distinct statement dates present among `rows`. */
  function Dates(rows: seq<PcapRow>): set<int>
  {
    set r | r in rows :: r.date
  }

  predicate StrictlyIncreasing(ds: seq<int>)
  {
    forall i, j :: 0 <= i < j < |ds| ==> ds[i] < ds[j]
  }

  /** `ds` with `d` inserted in its place, unless already present. */
  function InsertDate(ds: seq<int>, d: int): (r: seq<int>)
    requires StrictlyIncreasing(ds)
    ensures StrictlyIncreasing(r)
    ensures forall x :: x in r <==> x in ds || x == d
  {
    if ds == [] then [d]
    else if d < ds[0] then [d] + ds
    else if d == ds[0] then ds
    else
      var rest := InsertDate(ds[1..], d);
      assert forall k :: 0 <= k < |ds| - 1 ==> ds[0] < ds[1..][k];
      assert forall x :: x in rest ==> ds[0] < x;
      var r := [ds[0]] + rest;
      assert forall j :: 0 < j < |r| ==> r[j] == rest[j - 1] && rest[j - 1] in rest;
      r
  }

  /** `sorted(... .unique())`: the distinct dates of `rows`, ascending. */
  function SortedDates(rows: seq<PcapRow>): (ds: seq<int>)
    ensures StrictlyIncreasing(ds)
    ensures forall d :: d in ds <==> d in Dates(rows)
  {
    if rows == [] then []
    else
      assert forall r :: r in rows <==> r == rows[0] || r in rows[1..];
      InsertDate(SortedDates(rows[1..]), rows[0].date)
  }

  /** The periods of an LP are exactly the dates of its rows dated on or
      before the report date. */
  lemma LpPeriodDates(pcap: seq<PcapRow>, lp: string, reportDate: int)
    ensures forall d :: d in SortedDates(ForLp(pcap, lp, reportDate)) <==>
      exists r :: r in pcap && r.lp == lp && r.date <= reportDate && r.date == d
  {
    var rows := ForLp(pcap, lp, reportDate);
    forall d ensures d in Dates(rows) <==>
      exists r :: r in pcap && r.lp == lp && r.date <= reportDate && r.date == d
    {
      if d in Dates(rows) {
        var r :| r in rows && r.date == d;
        assert r in pcap && r.lp == lp && r.date <= reportDate;
      }
    }
  }

  /** In a strictly increasing sequence the head is the least element. */
  lemma HeadIsLeast(ds: seq<int>, x: int)
    requires StrictlyIncreasing(ds) && x in ds
    ensures ds[0] <= x
    ensures x in ds[1..] <==> x != ds[0]
  {
    var k :| 0 <= k < |ds| && ds[k] == x;
    if x in ds[1..] {
      var m :| 0 <= m < |ds| - 1 && ds[1..][m] == x;
      assert ds[m + 1] == x;
    }
    if k > 0 { assert ds[1..][k - 1] == x; }
  }

  /** A set of dates has exactly one strictly increasing listing, so the
      periods and their order are determined by the rows alone. */
  lemma {:induction false} SortedListingUnique(a: seq<int>, b: seq<int>)
    requires StrictlyIncreasing(a) && StrictlyIncreasing(b)
    requires forall x :: x in a <==> x in b
    ensures a == b
  {
    if a == [] {
      assert forall i :: 0 <= i < |b| ==> b[i] in b;
    } else {
      assert a[0] in a;
      assert b != [];
      assert b[0] in a;
      HeadIsLeast(a, b[0]);
      HeadIsLeast(b, a[0]);
      forall x ensures x in a[1..] <==> x in b[1..] {
        if x in a { HeadIsLeast(a, x); HeadIsLeast(b, x); }
      }
      SortedListingUnique(a[1..], b[1..]);
      assert a == [a[0]] + a[1..];
      assert b == [b[0]] + b[1..];
    }
  }

  /** `pcap_report_date`: the latest statement date among `rows` (the maximum
      of the date column), or None when there are no rows. */
  function LatestDate(rows: seq<PcapRow>): (latest: Option<int>)
    ensures latest.None? <==> rows == []
    ensures latest.Some? ==> latest.value in Dates(rows)
    ensures latest.Some? ==> forall r :: r in rows ==> r.date <= latest.value
  {
    if rows == [] then None
    else
      assert forall r :: r in rows <==> r == rows[0] || r in rows[1..];
      match LatestDate(rows[1..])
      case None => Some(rows[0].date)
      case Some(m) => Some(if rows[0].date >= m then rows[0].date else m)
  }

  /** The latest date is the last of the sorted distinct dates. */
  lemma LatestIsLastSortedDate(rows: seq<PcapRow>)
    ensures var ds := SortedDates(rows);
      LatestDate(rows) == if ds == [] then None else Some(ds[|ds| - 1])
  {
    var ds := SortedDates(rows);
    if ds != [] {
      var last := ds[|ds| - 1];
      assert last in Dates(rows);
      var m := LatestDate(rows).value;
      assert m in ds;
      assert forall j :: 0 <= j < |ds| ==> ds[j] <= last;
      assert last <= m by {
        var r :| r in rows && r.date == last;
      }
    }
  }
}
