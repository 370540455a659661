/** The ledger table and the summary totals reported for an LP as of a report
    date. Unlike the PCAP labels, ledger activities are matched by exact
    equality. Dates are day numbers and amounts exact integers. */
module Ledger {
  import opened Frames

  datatype LedgerRow = LedgerRow(
    relatedEntity: string,
    activityDate: int,
    activity: string,
    subActivity: string,
    amount: int)

  datatype Totals = Totals(
    capitalCalled: int,
    capitalDistribution: int,
    incomeDistribution: int,
    commitment: int,
    totalDistribution: int,
    remainingCapital: int)

  function Amount(r: LedgerRow): int { r.amount }

  /** Mask: the row is the LP's and dated on or before the report date. */
  function IsLpEntryAsOf(lp: string, reportDate: int): LedgerRow -> bool
  {
    (r: LedgerRow) => r.relatedEntity == lp && r.activityDate <= reportDate
  }

  /** Mask: the row's `Activity` is exactly `activity`. */
  function ActivityIs(activity: string): LedgerRow -> bool
  {
    (r: LedgerRow) => r.activity == activity
  }

  /** Mask: the row's `Sub Activity` is exactly `subActivity`. */
  function SubActivityIs(subActivity: string): LedgerRow -> bool
  {
    (r: LedgerRow) => r.subActivity == subActivity
  }

  /** `ledger_totals`: the LP's ledger rows dated on or before the report date. */
  function InScope(ledger: seq<LedgerRow>, lp: string, reportDate: int): (rows: seq<LedgerRow>)
    ensures forall r :: r in rows <==> r in ledger && r.relatedEntity == lp && r.activityDate <= reportDate
  {
    Filter(ledger, IsLpEntryAsOf(lp, reportDate))
  }

  function ActivityTotal(rows: seq<LedgerRow>, activity: string): (total: int)
    ensures (forall r :: r in rows ==> r.activity != activity) ==> total == 0
  {
    var matching := Filter(rows, ActivityIs(activity));
    assert (forall r :: r in rows ==> r.activity != activity) ==> matching == [] by {
      if forall r :: r in rows ==> r.activity != activity {
        FilterNone(rows, ActivityIs(activity));
      }
    }
    Sum(matching, Amount)
  }

  function SubActivityTotal(rows: seq<LedgerRow>, subActivity: string): (total: int)
    ensures (forall r :: r in rows ==> r.subActivity != subActivity) ==> total == 0
  {
    var matching := Filter(rows, SubActivityIs(subActivity));
    assert (forall r :: r in rows ==> r.subActivity != subActivity) ==> matching == [] by {
      if forall r :: r in rows ==> r.subActivity != subActivity {
        FilterNone(rows, SubActivityIs(subActivity));
      }
    }
    Sum(matching, Amount)
  }

  /** The totals dictionary: four base sums over the LP's rows up to the
      report date, and the two values derived from them. */
  function LedgerTotals(ledger: seq<LedgerRow>, lp: string, reportDate: int): (t: Totals)
    ensures t.totalDistribution == t.capitalDistribution + t.incomeDistribution
    ensures t.remainingCapital == t.capitalCalled - t.capitalDistribution
  {
    var rows := InScope(ledger, lp, reportDate);
    var called := ActivityTotal(rows, "Capital Call");
    var capitalDistribution := SubActivityTotal(rows, "Capital Distribution");
    var incomeDistribution := SubActivityTotal(rows, "Income Distribution");
    var commitment := ActivityTotal(rows, "LP Commitment");
    Totals(called, capitalDistribution, incomeDistribution, commitment,
           capitalDistribution + incomeDistribution,
           called - capitalDistribution)
  }

  /** The totals of a ledger with no rows: every sum is zero. */
  const NoTotals := Totals(0, 0, 0, 0, 0, 0)

  /** What one in-scope ledger row adds to each total: its amount goes to a
      base total exactly when its activity (or sub-activity) equals that
      total's name, and the derived totals follow. */
  function Contribution(r: LedgerRow): (c: Totals)
  {
    var called := if r.activity == "Capital Call" then r.amount else 0;
    var capital := if r.subActivity == "Capital Distribution" then r.amount else 0;
    var income := if r.subActivity == "Income Distribution" then r.amount else 0;
    var commitment := if r.activity == "LP Commitment" then r.amount else 0;
    Totals(called, capital, income, commitment, capital + income, called - capital)
  }

  function Add(a: Totals, b: Totals): Totals
  {
    Totals(a.capitalCalled + b.capitalCalled,
           a.capitalDistribution + b.capitalDistribution,
           a.incomeDistribution + b.incomeDistribution,
           a.commitment + b.commitment,
           a.totalDistribution + b.totalDistribution,
           a.remainingCapital + b.remainingCapital)
  }

  /** One more ledger row enters the LP's in-scope rows exactly when it is
      the LP's and dated on or before the report date. */
  lemma InScopeSnoc(ledger: seq<LedgerRow>, r: LedgerRow, lp: string, reportDate: int)
    ensures InScope(ledger + [r], lp, reportDate)
         == InScope(ledger, lp, reportDate)
            + (if r.relatedEntity == lp && r.activityDate <= reportDate then [r] else [])
  {
    FilterAppend(ledger, [r], IsLpEntryAsOf(lp, reportDate));
  }

  lemma ActivityTotalSnoc(rows: seq<LedgerRow>, r: LedgerRow, activity: string)
    ensures ActivityTotal(rows + [r], activity)
         == ActivityTotal(rows, activity) + (if r.activity == activity then r.amount else 0)
  {
    MaskedSumSnoc(rows, r, ActivityIs(activity), Amount);
  }

  lemma SubActivityTotalSnoc(rows: seq<LedgerRow>, r: LedgerRow, subActivity: string)
    ensures SubActivityTotal(rows + [r], subActivity)
         == SubActivityTotal(rows, subActivity) + (if r.subActivity == subActivity then r.amount else 0)
  {
    MaskedSumSnoc(rows, r, SubActivityIs(subActivity), Amount);
  }

  /** One more ledger row changes the totals only when it is the LP's and
      dated on or before the report date, and then by its contribution. */
  lemma LedgerTotalsSnoc(ledger: seq<LedgerRow>, r: LedgerRow, lp: string, reportDate: int)
    ensures LedgerTotals(ledger + [r], lp, reportDate)
         == if r.relatedEntity == lp && r.activityDate <= reportDate
            then Add(LedgerTotals(ledger, lp, reportDate), Contribution(r))
            else LedgerTotals(ledger, lp, reportDate)
  {
    hide Filter, Sum, ActivityTotal, SubActivityTotal;
    var rows := InScope(ledger, lp, reportDate);
    InScopeSnoc(ledger, r, lp, reportDate);
    if r.relatedEntity == lp && r.activityDate <= reportDate {
      ActivityTotalSnoc(rows, r, "Capital Call");
      SubActivityTotalSnoc(rows, r, "Capital Distribution");
      SubActivityTotalSnoc(rows, r, "Income Distribution");
      ActivityTotalSnoc(rows, r, "LP Commitment");
    } else {
      assert InScope(ledger + [r], lp, reportDate) == rows;
    }
  }

  /** A ledger with no row of the LP up to the report date has all totals zero. */
  lemma {:induction false} LedgerTotalsNoRows(ledger: seq<LedgerRow>, lp: string, reportDate: int)
    requires forall r :: r in ledger ==> r.relatedEntity != lp || r.activityDate > reportDate
    ensures LedgerTotals(ledger, lp, reportDate) == NoTotals
  {
    FilterNone(ledger, IsLpEntryAsOf(lp, reportDate));
  }
}
