/**
 * ReportController: the dashboard's key figures (revenue, growth, claims paid,
 * loss ratio, policy counts) and the six-month revenue/expense chart.
 *
 * Money is in hundredths. A percentage that the source computes as a double
 * is kept as the exact quotient it divides (see Percent).
 */
module Reports {
  import opened Common
  import opened Tables
  import opened Entities

  const StatusPaid := "PAID"
  const StatusApproved := "APPROVED"
  const StatusActive := "ACTIVE"
  /** The chart covers this many consecutive months, ending with the current one. */
  const ChartMonths := 6

  // ---------------------------------------------------------------- dates

  predicate IsCalendarMonth(d: Date) { 1 <= d.month <= 12 }

  /** DateOnly comparison: by year, then month, then day. */
  predicate DateLe(a: Date, b: Date) {
    a.year < b.year || (a.year == b.year && (a.month < b.month || (a.month == b.month && a.day <= b.day)))
  }

  lemma DateLeTransitive(a: Date, b: Date, c: Date)
    requires DateLe(a, b) && DateLe(b, c)
    ensures DateLe(a, c)
  {
  }

  /** `d >= start` on a nullable date column: null never passes. */
  predicate OnOrAfter(d: Option<Date>, start: Date) { d.Some? && DateLe(start, d.value) }

  /** `d < end` on a nullable date column: null never passes. */
  predicate Before(d: Option<Date>, end: Date) { d.Some? && !DateLe(end, d.value) }

  /** Months counted from January of year 0. */
  function MonthIndex(d: Date): int { d.year * 12 + d.month - 1 }

  /** The first day of the month with the given index. */
  function FirstOfMonth(index: int): (d: Date)
    ensures IsCalendarMonth(d) && d.day == 1
    ensures MonthIndex(d) == index
  {
    Date(index / 12, index % 12 + 1, 1)
  }

  /** The first day of the month `n` months after d's (AddMonths(n) then day 1). */
  function MonthStart(d: Date, n: int): (r: Date)
    ensures IsCalendarMonth(r) && r.day == 1
    ensures MonthIndex(r) == MonthIndex(d) + n
  {
    FirstOfMonth(MonthIndex(d) + n)
  }

  /** Within calendar months, an earlier month index means an earlier date. */
  lemma EarlierMonthIsEarlier(a: Date, b: Date)
    requires IsCalendarMonth(a) && IsCalendarMonth(b) && a.day == 1
    requires MonthIndex(a) <= MonthIndex(b) && 1 <= b.day
    ensures DateLe(a, b)
  {
  }

  // ---------------------------------------------------------------- percentages

  /**
   * A percentage as the source computes it: a fixed value from a zero guard,
   * or numerator / denominator * 100 (a double, then Math.Round(_, 1)).
   */
  datatype Percent = Exact(value: int) | Quotient(numerator: int, denominator: int)

  ghost function PercentValue(p: Percent): real {
    match p
    case Exact(v) => v as real
    case Quotient(n, d) => if d == 0 then 0.0 else n as real / d as real * 100.0
  }

  /**
   * Month-on-month growth: relative to a positive last month; otherwise 100 when
   * this month has revenue and 0 when it has none.
   */
  function Growth(current: int, last: int): (r: Percent)
    ensures last > 0 ==> r == Quotient(current - last, last)
    ensures last <= 0 && current > 0 ==> r == Exact(100)
    ensures last <= 0 && current <= 0 ==> r == Exact(0)
  {
    if last > 0 then Quotient(current - last, last)
    else if current > 0 then Exact(100)
    else Exact(0)
  }

  /** Growth is positive exactly when revenue rose (from nothing counts as rising) and zero exactly when it held. */
  lemma GrowthSign(current: int, last: int)
    ensures PercentValue(Growth(current, last)) > 0.0 <==> if last > 0 then current > last else current > 0
    ensures PercentValue(Growth(current, last)) == 0.0 <==> if last > 0 then current == last else current <= 0
  {
    if last > 0 {
      var q := (current - last) as real / last as real;
      assert q * last as real == (current - last) as real;
      assert q > 0.0 <==> current > last;
      assert q == 0.0 <==> current == last;
    }
  }

  /** Loss ratio: claims paid over the year's revenue, 0 when the year has no revenue. */
  function LossRatio(claimsPaid: int, yearRevenue: int): (r: Percent)
    ensures yearRevenue > 0 ==> r == Quotient(claimsPaid, yearRevenue)
    ensures yearRevenue <= 0 ==> r == Exact(0)
  {
    if yearRevenue > 0 then Quotient(claimsPaid, yearRevenue) else Exact(0)
  }

  /** Claims paid within the year's revenue give a ratio between 0 and 100. */
  lemma LossRatioBounded(claimsPaid: int, yearRevenue: int)
    requires 0 <= claimsPaid <= yearRevenue
    ensures 0.0 <= PercentValue(LossRatio(claimsPaid, yearRevenue)) <= 100.0
  {
    if yearRevenue > 0 {
      var q := claimsPaid as real / yearRevenue as real;
      assert q * yearRevenue as real == claimsPaid as real;
      assert 0.0 <= q <= 1.0;
    }
  }

  // ---------------------------------------------------------------- KPI summary

  function Premium(p: Policy): int { p.premiumAmount }
  function Claimable(c: Claim): int { c.claimableAmount }

  predicate StartsFrom(p: Policy, start: Date) { OnOrAfter(p.policyStartDate, start) }

  predicate StartsWithin(p: Policy, window: (Date, Date)) {
    OnOrAfter(p.policyStartDate, window.0) && Before(p.policyStartDate, window.1)
  }

  /** Status == "PAID" || Status == "APPROVED". */
  predicate IsSettled(c: Claim, u: ()) { c.status == Some(StatusPaid) || c.status == Some(StatusApproved) }

  predicate IsActivePolicy(p: Policy, u: ()) { p.status == Some(StatusActive) }

  datatype KpiSummary = KpiSummary(
    totalRevenue: int,
    revenueGrowth: Percent,
    totalClaimsPaid: int,
    totalClaims: int,
    lossRatio: Percent,
    totalPolicies: int,
    newPolicies: int)

  function StartOfMonth(today: Date): Date { MonthStart(today, 0) }
  function StartOfLastMonth(today: Date): Date { MonthStart(today, -1) }
  function StartOfYear(today: Date): Date { Date(today.year, 1, 1) }

  /** Revenue: premiums of policies starting on or after `start` (later starts included). */
  function RevenueFrom(policies: map<int, Policy>, start: Date): int {
    SumWhere(policies, StartsFrom, start, Premium)
  }

  /** GetKpiSummary for the day `today`. */
  function GetKpiSummary(policies: map<int, Policy>, claims: map<int, Claim>, today: Date): (r: KpiSummary)
    requires IsCalendarMonth(today)
    ensures r.totalClaims >= 0 && r.totalPolicies >= 0 && r.newPolicies >= 0
    ensures r.totalClaims <= |claims| && r.totalPolicies <= |policies| && r.newPolicies <= |policies|
    ensures r.totalClaims == |KeysWhere(claims, IsSettled, ())|
    ensures r.totalPolicies == |KeysWhere(policies, IsActivePolicy, ())|
    ensures r.newPolicies == |KeysWhere(policies, StartsFrom, StartOfMonth(today))|
    ensures r.totalRevenue == SumOver(KeysWhere(policies, StartsFrom, StartOfMonth(today)), policies, Premium)
    ensures r.totalClaimsPaid == SumOver(KeysWhere(claims, IsSettled, ()), claims, Claimable)
    ensures r.lossRatio == LossRatio(r.totalClaimsPaid, RevenueFrom(policies, StartOfYear(today)))
    ensures r.revenueGrowth
         == Growth(r.totalRevenue,
                   SumOver(KeysWhere(policies, StartsWithin, (StartOfLastMonth(today), StartOfMonth(today))),
                           policies, Premium))
  {
    SumWhereIsSumOver(policies, StartsWithin, (StartOfLastMonth(today), StartOfMonth(today)), Premium);
    RowsWhereCount(claims, IsSettled, ());
    RowsWhereCount(policies, IsActivePolicy, ());
    RowsWhereCount(policies, StartsFrom, StartOfMonth(today));
    SumWhereIsSumOver(policies, StartsFrom, StartOfMonth(today), Premium);
    SumWhereIsSumOver(claims, IsSettled, (), Claimable);
    var current := RevenueFrom(policies, StartOfMonth(today));
    var last := SumWhere(policies, StartsWithin, (StartOfLastMonth(today), StartOfMonth(today)), Premium);
    var claimsPaid := SumWhere(claims, IsSettled, (), Claimable);
    var year := RevenueFrom(policies, StartOfYear(today));
    KpiSummary(current, Growth(current, last), claimsPaid, |RowsWhere(claims, IsSettled, ())|,
               LossRatio(claimsPaid, year), |RowsWhere(policies, IsActivePolicy, ())|,
               |RowsWhere(policies, StartsFrom, StartOfMonth(today))|)
  }

  /** The claim count and the claims paid range over the same claims: none counted, nothing paid. */
  lemma NoClaimsNothingPaid(policies: map<int, Policy>, claims: map<int, Claim>, today: Date)
    requires IsCalendarMonth(today)
    requires GetKpiSummary(policies, claims, today).totalClaims == 0
    ensures GetKpiSummary(policies, claims, today).totalClaimsPaid == 0
  {
    CountZeroSumZero(claims, IsSettled, (), Claimable);
  }

  /** New policies and this month's revenue range over the same policies: none new, no revenue. */
  lemma NoNewPoliciesNoRevenue(policies: map<int, Policy>, claims: map<int, Claim>, today: Date)
    requires IsCalendarMonth(today)
    requires GetKpiSummary(policies, claims, today).newPolicies == 0
    ensures GetKpiSummary(policies, claims, today).totalRevenue == 0
  {
    CountZeroSumZero(policies, StartsFrom, StartOfMonth(today), Premium);
  }

  /**
   * Storing a claim that is neither PAID nor APPROVED, as a new claim or over one that
   * was neither either, leaves every figure of the summary as it was.
   */
  lemma UnsettledClaimChangesNothing(policies: map<int, Policy>, claims: map<int, Claim>, today: Date,
                                     id: int, c: Claim)
    requires IsCalendarMonth(today)
    requires !IsSettled(c, ())
    requires id in claims ==> !IsSettled(claims[id], ())
    ensures GetKpiSummary(policies, claims[id := c], today) == GetKpiSummary(policies, claims, today)
  {
    StoreFailingRow(claims, IsSettled, (), Claimable, id, c);
  }

  /** Settling a new claim counts it and adds its claimable amount to the claims paid. */
  lemma SettledClaimCounted(policies: map<int, Policy>, claims: map<int, Claim>, today: Date, id: int, c: Claim)
    requires IsCalendarMonth(today)
    requires id !in claims && IsSettled(c, ())
    ensures GetKpiSummary(policies, claims[id := c], today).totalClaims
         == GetKpiSummary(policies, claims, today).totalClaims + 1
    ensures GetKpiSummary(policies, claims[id := c], today).totalClaimsPaid
         == GetKpiSummary(policies, claims, today).totalClaimsPaid + c.claimableAmount
  {
    var m' := claims[id := c];
    KeysWhereInsert(claims, IsSettled, (), id, c);
    var T := KeysWhere(claims, IsSettled, ());
    forall k | k in T ensures id != k {
    }
    SumOverInsert(id, T, m', Claimable);
    SumOverAgree(T, claims, m', Claimable);
  }

  /** With no negative premiums, the year's revenue (the loss ratio's base) covers this month's. */
  lemma YearRevenueCoversMonth(policies: map<int, Policy>, today: Date)
    requires IsCalendarMonth(today)
    requires forall k :: k in policies ==> policies[k].premiumAmount >= 0
    ensures RevenueFrom(policies, StartOfMonth(today)) <= RevenueFrom(policies, StartOfYear(today))
  {
    var month, year := StartOfMonth(today), StartOfYear(today);
    assert DateLe(year, month);
    forall k | k in policies && StartsFrom(policies[k], month) ensures StartsFrom(policies[k], year) {
      DateLeTransitive(year, month, policies[k].policyStartDate.value);
    }
    SumWhereMonotone(policies, StartsFrom, month, StartsFrom, year, Premium);
  }

  // ---------------------------------------------------------------- six-month chart

  /** The first day of the month five months before today's. */
  function ChartStart(today: Date): Date { MonthStart(today, -(ChartMonths - 1)) }

  /** The first day of the i-th chart month (startOfPeriod.AddMonths(i)). */
  function ChartMonth(today: Date, i: int): (d: Date)
    ensures IsCalendarMonth(d) && d.day == 1
  {
    MonthStart(ChartStart(today), i)
  }

  /** The chart's months follow each other and end with the current month. */
  lemma ChartWindow(today: Date, i: int)
    requires IsCalendarMonth(today) && 1 <= today.day
    requires 0 <= i < ChartMonths
    ensures MonthIndex(ChartMonth(today, i)) == MonthIndex(today) - (ChartMonths - 1) + i
    ensures DateLe(ChartStart(today), ChartMonth(today, i)) && DateLe(ChartMonth(today, i), today)
    ensures i == ChartMonths - 1 ==> ChartMonth(today, i).year == today.year
                                     && ChartMonth(today, i).month == today.month
  {
    EarlierMonthIsEarlier(ChartStart(today), ChartMonth(today, i));
    EarlierMonthIsEarlier(ChartMonth(today, i), today);
    if i == ChartMonths - 1 {
      var d := ChartMonth(today, i);
      assert MonthIndex(d) == MonthIndex(today);
      assert d.year == today.year;
    }
  }

  /** $"T{month}/{year}" */
  function Label(d: Date): (r: string)
    requires IsCalendarMonth(d)
    ensures |r| >= 4 && r[0] == 'T'
  {
    "T" + NatToString(d.month) + "/" + IntToString(d.year)
  }

  /** A rendered integer starts with '-' exactly when it is negative. */
  lemma IntToStringSign(n: int)
    ensures |IntToString(n)| > 0
    ensures IntToString(n)[0] == '-' <==> n < 0
    ensures n < 0 ==> IntToString(n)[1..] == NatToString(-n)
  {
    if n >= 0 {
      assert IsDigit(NatToString(n)[0]);
    }
  }

  lemma IntToStringInjective(a: int, b: int)
    requires IntToString(a) == IntToString(b)
    ensures a == b
  {
    IntToStringSign(a);
    IntToStringSign(b);
    if a < 0 {
      NatToStringInjective(-a, -b);
    } else {
      NatToStringInjective(a, b);
    }
  }

  /** The '/' of a label follows the month's digits, so a label gives back its month and year. */
  lemma LabelInjective(a: Date, b: Date)
    requires IsCalendarMonth(a) && IsCalendarMonth(b)
    requires Label(a) == Label(b)
    ensures a.month == b.month && a.year == b.year
  {
    var ma, mb := NatToString(a.month), NatToString(b.month);
    var l := Label(a);
    assert l[1 + |ma|] == '/' && l[1 + |mb|] == '/';
    assert forall j :: 0 <= j < |ma| ==> l[1 + j] == ma[j];
    assert forall j :: 0 <= j < |mb| ==> l[1 + j] == mb[j];
    assert |ma| == |mb|;
    assert ma == l[1..1 + |ma|] == mb;
    NatToStringInjective(a.month, b.month);
    assert IntToString(a.year) == l[2 + |ma|..] == IntToString(b.year);
    IntToStringInjective(a.year, b.year);
  }

  /** The six labels are all different. */
  lemma ChartLabelsDistinct(today: Date, i: int, j: int)
    requires 0 <= i < j < ChartMonths
    ensures Label(ChartMonth(today, i)) != Label(ChartMonth(today, j))
  {
    if Label(ChartMonth(today, i)) == Label(ChartMonth(today, j)) {
      LabelInjective(ChartMonth(today, i), ChartMonth(today, j));
      assert false;
    }
  }

  /** A policy in the revenue query (start date from `start` on) starting in the given year and month. */
  predicate RevenueInMonth(p: Policy, w: (Date, int, int)) {
    OnOrAfter(p.policyStartDate, w.0) && p.policyStartDate.value.year == w.1 && p.policyStartDate.value.month == w.2
  }

  /** A PAID or APPROVED claim in the expense query with an accident in the given year and month. */
  predicate ExpenseInMonth(c: Claim, w: (Date, int, int)) {
    OnOrAfter(c.accidentDate, w.0) && IsSettled(c, ())
    && c.accidentDate.value.year == w.1 && c.accidentDate.value.month == w.2
  }

  /** The revenue group of a month, or 0 when the month has no group. */
  function MonthRevenue(policies: map<int, Policy>, start: Date, d: Date): int {
    SumWhere(policies, RevenueInMonth, (start, d.year, d.month), Premium)
  }

  /** The expense group of a month, or 0 when the month has no group. */
  function MonthExpense(claims: map<int, Claim>, start: Date, d: Date): int {
    SumWhere(claims, ExpenseInMonth, (start, d.year, d.month), Claimable)
  }

  /** A month in which no policy starts shows 0 revenue. */
  lemma QuietMonthHasNoRevenue(policies: map<int, Policy>, start: Date, d: Date)
    requires forall k :: k in policies && policies[k].policyStartDate.Some?
                         ==> policies[k].policyStartDate.value.year != d.year
                             || policies[k].policyStartDate.value.month != d.month
    ensures MonthRevenue(policies, start, d) == 0
  {
    SumWhereNone(policies, RevenueInMonth, (start, d.year, d.month), Premium);
  }

  /** Claims that are neither PAID nor APPROVED never reach the expense series. */
  lemma UnsettledClaimsCostNothing(claims: map<int, Claim>, start: Date, d: Date)
    requires forall k :: k in claims ==> !IsSettled(claims[k], ())
    ensures MonthExpense(claims, start, d) == 0
  {
    SumWhereNone(claims, ExpenseInMonth, (start, d.year, d.month), Claimable);
  }

  /** One month of the chart: its label (name), the revenue and the expense of the i-th month. */
  method ChartPoint(policies: map<int, Policy>, claims: map<int, Claim>, today: Date, i: int)
    returns (name: string, income: int, cost: int)
    ensures name == Label(ChartMonth(today, i))
    ensures income == MonthRevenue(policies, ChartStart(today), ChartMonth(today, i))
    ensures cost == MonthExpense(claims, ChartStart(today), ChartMonth(today, i))
  {
    var start := ChartStart(today);
    var d := MonthStart(start, i);
    name := Label(d);
    income := MonthRevenue(policies, start, d);
    cost := MonthExpense(claims, start, d);
  }

  /**
   * GetChartData for the day `today`: six labels with the revenue and the
   * expense of each month, in month order.
   */
  method GetChartData(policies: map<int, Policy>, claims: map<int, Claim>, today: Date)
    returns (labels: seq<string>, revenue: seq<int>, expense: seq<int>)
    ensures |labels| == ChartMonths && |revenue| == ChartMonths && |expense| == ChartMonths
    ensures forall i :: 0 <= i < ChartMonths ==> labels[i] == Label(ChartMonth(today, i))
    ensures forall i :: 0 <= i < ChartMonths ==>
              revenue[i] == MonthRevenue(policies, ChartStart(today), ChartMonth(today, i))
    ensures forall i :: 0 <= i < ChartMonths ==>
              expense[i] == MonthExpense(claims, ChartStart(today), ChartMonth(today, i))
  {
    labels, revenue, expense := [], [], [];
    for i := 0 to ChartMonths
      invariant |labels| == i && |revenue| == i && |expense| == i
      invariant forall j :: 0 <= j < i ==> labels[j] == Label(ChartMonth(today, j))
      invariant forall j :: 0 <= j < i ==> revenue[j] == MonthRevenue(policies, ChartStart(today), ChartMonth(today, j))
      invariant forall j :: 0 <= j < i ==> expense[j] == MonthExpense(claims, ChartStart(today), ChartMonth(today, j))
    {
      var name, income, cost := ChartPoint(policies, claims, today, i);
      LabelsExtended(labels, today, name);
      RevenueExtended(revenue, policies, today, income);
      ExpenseExtended(expense, claims, today, cost);
      labels := labels + [name];
      revenue := revenue + [income];
      expense := expense + [cost];
    }
  }

  lemma LabelsExtended(labels: seq<string>, today: Date, name: string)
    requires forall j :: 0 <= j < |labels| ==> labels[j] == Label(ChartMonth(today, j))
    requires name == Label(ChartMonth(today, |labels|))
    ensures forall j :: 0 <= j < |labels| + 1 ==> (labels + [name])[j] == Label(ChartMonth(today, j))
  {
  }

  lemma RevenueExtended(revenue: seq<int>, policies: map<int, Policy>, today: Date, income: int)
    requires forall j :: 0 <= j < |revenue| ==> revenue[j] == MonthRevenue(policies, ChartStart(today), ChartMonth(today, j))
    requires income == MonthRevenue(policies, ChartStart(today), ChartMonth(today, |revenue|))
    ensures forall j :: 0 <= j < |revenue| + 1 ==>
              (revenue + [income])[j] == MonthRevenue(policies, ChartStart(today), ChartMonth(today, j))
  {
  }

  lemma ExpenseExtended(expense: seq<int>, claims: map<int, Claim>, today: Date, cost: int)
    requires forall j :: 0 <= j < |expense| ==> expense[j] == MonthExpense(claims, ChartStart(today), ChartMonth(today, j))
    requires cost == MonthExpense(claims, ChartStart(today), ChartMonth(today, |expense|))
    ensures forall j :: 0 <= j < |expense| + 1 ==>
              (expense + [cost])[j] == MonthExpense(claims, ChartStart(today), ChartMonth(today, j))
  {
  }
}
