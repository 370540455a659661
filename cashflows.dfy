/** The per-LP cash-flow series fed to the IRR computation: one signed flow
    per distinct statement date of the LP up to the report date. Calls are
    paid by the LP (negative), distributions and the final ending balance
    come back to it. */
module Cashflows {
  import opened Frames
  import opened Pcap

  /** Builds the dates and flows as the request handler's loop does, one
      period at a time:
      - the first period gives minus its "Capital Call" total, and nothing
        else, even when it is the only period;
      - every later period gives minus its "Capital Call" plus "Distributions"
        totals;
      - the last period, when it is not also the first, adds its
        "Ending Capital Balance" total.
      Also returns the ending balance the loop leaves behind and the latest
      statement date (None when the LP has no statement up to the report date). */
  method BuildCashflows(pcap: seq<PcapRow>, lp: string, reportDate: int)
    returns (qDates: seq<int>, cashflows: seq<int>, endingBalance: int, pcapReportDate: Option<int>)
    ensures forall d :: d in qDates <==> d in Dates(ForLp(pcap, lp, reportDate))
    ensures StrictlyIncreasing(qDates)
    ensures forall d :: d in qDates <==>
      exists r :: r in pcap && r.lp == lp && r.date <= reportDate && r.date == d
    ensures |cashflows| == |qDates|
    ensures pcapReportDate == if qDates == [] then None else Some(qDates[|qDates| - 1])
    ensures |qDates| >= 1 ==>
      cashflows[0] == -PeriodTotal(pcap, lp, reportDate, qDates[0], CapitalCall)
    ensures forall i :: 0 < i < |qDates| - 1 ==>
      cashflows[i] == -(PeriodTotal(pcap, lp, reportDate, qDates[i], CapitalCall)
                        + PeriodTotal(pcap, lp, reportDate, qDates[i], Distributions))
    ensures |qDates| >= 2 ==>
      var last := qDates[|qDates| - 1];
      cashflows[|qDates| - 1]
        == -(PeriodTotal(pcap, lp, reportDate, last, CapitalCall)
             + PeriodTotal(pcap, lp, reportDate, last, Distributions))
           + PeriodTotal(pcap, lp, reportDate, last, EndingCapitalBalance)
    ensures endingBalance
      == if qDates == [] then 0
         else PeriodTotal(pcap, lp, reportDate, qDates[|qDates| - 1], EndingCapitalBalance)
  {
    // The proof only matches label totals, slices and date listings by name;
    // their bodies are not needed here.
    hide FieldTotal, Filter, SortedDates, LatestDate;
    var pcapsForLp := ForLp(pcap, lp, reportDate);
    pcapReportDate := LatestDate(pcapsForLp);
    qDates := SortedDates(pcapsForLp);
    assert pcapReportDate == if qDates == [] then None else Some(qDates[|qDates| - 1]) by {
      LatestIsLastSortedDate(pcapsForLp);
    }
    assert forall d :: d in qDates <==>
      exists r :: r in pcap && r.lp == lp && r.date <= reportDate && r.date == d
    by {
      LpPeriodDates(pcap, lp, reportDate);
    }

    cashflows := [];
    endingBalance := 0;
    var n := |qDates|;
    for i := 0 to n
      invariant |cashflows| == i
      invariant i >= 1 ==> cashflows[0] == -PeriodTotal(pcap, lp, reportDate, qDates[0], CapitalCall)
      invariant forall k :: 0 < k < i && k < n - 1 ==>
        cashflows[k] == -(PeriodTotal(pcap, lp, reportDate, qDates[k], CapitalCall)
                          + PeriodTotal(pcap, lp, reportDate, qDates[k], Distributions))
      invariant i == n && n >= 2 ==>
        cashflows[n - 1]
          == -(PeriodTotal(pcap, lp, reportDate, qDates[n - 1], CapitalCall)
               + PeriodTotal(pcap, lp, reportDate, qDates[n - 1], Distributions))
             + PeriodTotal(pcap, lp, reportDate, qDates[n - 1], EndingCapitalBalance)
      invariant endingBalance
        == if i == n && n > 0 then PeriodTotal(pcap, lp, reportDate, qDates[n - 1], EndingCapitalBalance)
           else 0
    {
      var pcapSlice := OnDate(pcapsForLp, qDates[i]);
      assert pcapSlice == Period(pcap, lp, reportDate, qDates[i]);

      // For the last period, keep its ending balance.
      if i == n - 1 {
        endingBalance := FieldTotal(pcapSlice, EndingCapitalBalance);
      }

      var totalInflow;
      if i == 0 {
        // First period: only capital calls count.
        totalInflow := -FieldTotal(pcapSlice, CapitalCall);
      } else {
        var capitalCall := FieldTotal(pcapSlice, CapitalCall);
        var dist := FieldTotal(pcapSlice, Distributions);
        totalInflow := -(capitalCall + dist) + endingBalance;
      }
      cashflows := cashflows + [totalInflow];
    }
  }
}
