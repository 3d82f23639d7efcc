/** The debt-paydown simulation: a month-by-month loop over the loan table
    that pays minimums, splits what is left between extra debt payment and
    savings, and reports one snapshot per month until the debts are gone or
    the horizon is reached. */
module Engine {
  import opened Loans
  import opened BalanceSort
  import opened Payments
  import opened Calendar

  datatype Option<T> = None | Some(value: T)

  /** The start date as the caller supplies it: its text, and the calendar
      month that text names. */
  datatype StartDate = StartDate(text: string, first: YearMonth)

  /** Everything the simulation reads besides the loans. `changeMonth` and
      `newIncome` are the optional future income change. */
  datatype Params = Params(
    baseIncome: real,
    expenses: real,
    savingsShare: real,
    months: int,
    start: StartDate,
    changeMonth: Option<int>,
    newIncome: Option<real>)

  /** The working state between months: the loan list in its current order
      and the savings accumulated so far. */
  datatype State = State(loans: seq<Loan>, savings: real)

  /** A row's date: a calendar month, or the start date's own text in the
      placeholder row. */
  datatype DateLabel = MonthOf(ym: YearMonth) | Verbatim(text: string)

  /** One reported month. `net` is savings less the debt at month end. */
  datatype Snapshot = Snapshot(
    month: int,
    date: DateLabel,
    debtStart: real,
    debtEnd: real,
    savings: real,
    net: real,
    incomeUsed: real)

  /** The income change takes effect only when both its month and its new
      income are set and non-zero: a value of zero counts as not set. */
  predicate ChangeConfigured(p: Params) {
    && p.changeMonth.Some? && p.changeMonth.value != 0
    && p.newIncome.Some? && p.newIncome.value != 0.0
  }

  /** The income used in a month. */
  function IncomeFor(p: Params, month: int): (r: real)
    ensures p.newIncome == None || p.newIncome == Some(0.0) ==> r == p.baseIncome
    ensures p.changeMonth == None || p.changeMonth == Some(0) ==> r == p.baseIncome
    ensures p.changeMonth.Some? && month < p.changeMonth.value ==> r == p.baseIncome
    ensures ChangeConfigured(p) && month >= p.changeMonth.value ==> r == p.newIncome.value
  {
    if ChangeConfigured(p) && month >= p.changeMonth.value then p.newIncome.value else p.baseIncome
  }

  /** Once the new income is in force it stays in force. */
  lemma IncomeChangeIsPermanent(p: Params, m: int, n: int)
    requires m <= n && IncomeFor(p, m) != p.baseIncome
    ensures IncomeFor(p, n) == IncomeFor(p, m) == p.newIncome.value
  {
  }

  /** A month's cash flow, from the loans active at the month start. */
  datatype Allocation = Allocation(income: real, mandatory: real, leftover: real, toDebt: real, toSavings: real)

  function Allocate(p: Params, active: seq<Loan>, month: int): (a: Allocation)
    ensures a.income == IncomeFor(p, month)
    ensures a.mandatory == TotalMinimum(active)
    ensures a.leftover >= 0.0 && a.leftover >= a.income - p.expenses - a.mandatory
    ensures a.leftover == 0.0 || a.leftover == a.income - p.expenses - a.mandatory
    ensures a.toDebt + a.toSavings == a.leftover
    ensures a.toSavings == p.savingsShare * a.leftover
    ensures p.savingsShare >= 0.0 ==> a.toSavings >= 0.0
    ensures p.savingsShare <= 1.0 ==> a.toDebt >= 0.0
    ensures p.savingsShare == 0.0 ==> a.toSavings == 0.0
    ensures p.savingsShare == 1.0 ==> a.toDebt == 0.0
  {
    var leftover := Leftover(IncomeFor(p, month), p.expenses, TotalMinimum(active));
    Allocation(
      IncomeFor(p, month),
      TotalMinimum(active),
      leftover,
      SplitLeftover(leftover, p.savingsShare).toDebt,
      SplitLeftover(leftover, p.savingsShare).toSavings)
  }

  /** The loans after one month's payments. */
  function PayMonth(p: Params, st: State, month: int): seq<Loan>
  {
    ApplyExtra(PayMinimums(Active(st.loans)), Allocate(p, Active(st.loans), month).toDebt)
  }

  /** The state at the end of a month. */
  function NextState(p: Params, st: State, month: int): State
  {
    State(PayMonth(p, st, month), st.savings + Allocate(p, Active(st.loans), month).toSavings)
  }

  /** The snapshot reported for a month. */
  function RowFor(p: Params, st: State, month: int): Snapshot
  {
    var next := NextState(p, st, month);
    var debtEnd := TotalBalance(next.loans);
    Snapshot(
      month,
      MonthOf(AddMonths(p.start.first, month - 1)),
      TotalBalance(Active(st.loans)),
      debtEnd,
      next.savings,
      next.savings - debtEnd,
      IncomeFor(p, month))
  }

  /** The test that lets a month run: the filtered loans still owe a
      positive total. */
  predicate HasDebt(st: State) { TotalBalance(Active(st.loans)) > 0.0 }

  /** The loop from `month` to the horizon. */
  function Run(p: Params, st: State, month: int): (rows: seq<Snapshot>)
    ensures |rows| <= if month <= p.months then p.months - month + 1 else 0
    ensures forall i :: 0 <= i < |rows| ==> rows[i].month == month + i
    decreases if month <= p.months then p.months - month + 1 else 0
  {
    if month > p.months || !HasDebt(st) then []
    else
      var rest := Run(p, NextState(p, st, month), month + 1);
      assert forall i :: 1 <= i <= |rest| ==> ([RowFor(p, st, month)] + rest)[i] == rest[i - 1];
      [RowFor(p, st, month)] + rest
  }

  function Initial(loans: seq<Loan>): State { State(loans, 0.0) }

  /** The single row returned when no month was simulated. */
  function PlaceholderRow(p: Params): Snapshot
  {
    Snapshot(0, Verbatim(p.start.text), 0.0, 0.0, 0.0, 0.0, p.baseIncome)
  }

  /** The whole simulation: the monthly rows, or the placeholder row when
      there are none. */
  function Simulate(p: Params, loans: seq<Loan>): (rows: seq<Snapshot>)
    ensures |rows| >= 1
    ensures || rows == [PlaceholderRow(p)]
            || (&& |rows| <= p.months
                && forall i :: 0 <= i < |rows| ==> rows[i].month == i + 1)
  {
    var rows := Run(p, Initial(loans), 1);
    if |rows| == 0 then [PlaceholderRow(p)] else rows
  }

  /** The state at the start of month `month + k`, reached from `st` at the
      start of `month` by `k` months of payments. */
  function StateFrom(p: Params, st: State, month: int, k: nat): State
    decreases k
  {
    if k == 0 then st else StateFrom(p, NextState(p, st, month), month + 1, k - 1)
  }

  /** The state at the start of month `k + 1` of a simulation of `loans`. */
  function StateAt(p: Params, loans: seq<Loan>, k: nat): State
  {
    StateFrom(p, Initial(loans), 1, k)
  }

  /** The stop test only fires once no loan is left above the threshold. */
  lemma HasDebtIffSomeOwed(st: State)
    ensures HasDebt(st) <==> exists l :: l in st.loans && IsActive(l)
    ensures HasDebt(st) <==> |Active(st.loans)| > 0
  {
    ActiveTotalPositiveIffSomeOwed(st.loans);
  }

  /** After any month every balance is non-negative, non-negative minimums
      stay non-negative, and the list has one entry per loan that passed the
      month's filter (loans this month's payments cleared are still in it,
      until the next month's filter). */
  lemma MonthKeepsInvariants(p: Params, st: State, month: int)
    ensures BalancesNonNegative(NextState(p, st, month).loans)
    ensures MinsNonNegative(st.loans) ==> MinsNonNegative(NextState(p, st, month).loans)
    ensures |NextState(p, st, month).loans| == |Active(st.loans)|
  {
    var active := Active(st.loans);
    var paid := PayMinimums(active);
    var extra := Allocate(p, active, month).toDebt;
    PayMinimumsKeepsInvariants(active);
    ExtraKeepsInvariants(paid, extra);
    if MinsNonNegative(st.loans) {
      ActiveKeepsMins(st.loans);
    }
  }

  /** What a month takes off the debt: the minimums actually paid (each
      capped at its balance) plus the capped extra payment on the smallest
      loan. Savings grow by the savings part of the leftover. */
  lemma MonthAccounting(p: Params, st: State, month: int)
    ensures RowFor(p, st, month).debtEnd
              == RowFor(p, st, month).debtStart
                 - TotalMinimumPaid(Active(st.loans))
                 - ExtraPaid(PayMinimums(Active(st.loans)), Allocate(p, Active(st.loans), month).toDebt)
    ensures RowFor(p, st, month).savings == st.savings + Allocate(p, Active(st.loans), month).toSavings
    ensures RowFor(p, st, month).net == RowFor(p, st, month).savings - RowFor(p, st, month).debtEnd
  {
    PaymentsTotal(Active(st.loans), Allocate(p, Active(st.loans), month).toDebt);
  }

  /** With non-negative minimums, a month never raises the debt and never
      leaves it negative. */
  lemma MonthNeverRaisesDebt(p: Params, st: State, month: int)
    requires MinsNonNegative(st.loans)
    ensures 0.0 <= RowFor(p, st, month).debtEnd <= RowFor(p, st, month).debtStart
  {
    var active := Active(st.loans);
    ActiveKeepsMins(st.loans);
    ActiveSpec(st.loans);
    assert BalancesNonNegative(active);
    PaymentsNeverRaiseDebt(active, Allocate(p, active, month).toDebt);
  }

  /** The extra payment reorders the list only when it is made; the new
      order is the sorted one and it is what the next month starts from. */
  lemma MonthLoanOrder(p: Params, st: State, month: int)
    ensures Allocate(p, Active(st.loans), month).toDebt <= 0.0 ==>
              NextState(p, st, month).loans == PayMinimums(Active(st.loans))
    ensures Allocate(p, Active(st.loans), month).toDebt > 0.0 && |Active(st.loans)| > 0 ==>
              NextState(p, st, month).loans[1..] == SortByBalance(PayMinimums(Active(st.loans)))[1..]
  {
    var paid := PayMinimums(Active(st.loans));
    var extra := Allocate(p, Active(st.loans), month).toDebt;
    if extra > 0.0 && |paid| > 0 {
      ExtraRest(paid, extra);
    }
  }

  /** With the whole leftover going to savings, no extra payment is made: the
      loans keep their order and the debt falls by the capped minimums only. */
  lemma SavingsOnlyMonth(p: Params, st: State, month: int)
    requires p.savingsShare == 1.0
    ensures NextState(p, st, month).loans == PayMinimums(Active(st.loans))
    ensures RowFor(p, st, month).debtEnd == RowFor(p, st, month).debtStart - TotalMinimumPaid(Active(st.loans))
    ensures RowFor(p, st, month).savings == st.savings + Allocate(p, Active(st.loans), month).leftover
  {
    MonthAccounting(p, st, month);
  }

  /** A row is consistent when the month did not raise the debt, left it
      non-negative, and reports savings less ending debt as net position. */
  predicate RowSound(r: Snapshot) {
    0.0 <= r.debtEnd <= r.debtStart && r.net == r.savings - r.debtEnd
  }

  lemma {:induction false} RunRowsSound(p: Params, st: State, month: int)
    requires MinsNonNegative(st.loans)
    ensures forall i :: 0 <= i < |Run(p, st, month)| ==> RowSound(Run(p, st, month)[i])
    decreases if month <= p.months then p.months - month + 1 else 0
  {
    if month <= p.months && HasDebt(st) {
      var rows := Run(p, st, month);
      var rest := Run(p, NextState(p, st, month), month + 1);
      MonthNeverRaisesDebt(p, st, month);
      MonthKeepsInvariants(p, st, month);
      RunRowsSound(p, NextState(p, st, month), month + 1);
      RunStep(p, st, month);
      assert RowSound(rows[0]);
      assert forall i :: 1 <= i < |rows| ==> rows[i] == rest[i - 1];
    }
  }

  lemma {:induction false} RunSavingsMonotone(p: Params, st: State, month: int)
    requires p.savingsShare >= 0.0
    ensures forall i :: 0 <= i < |Run(p, st, month)| ==> st.savings <= Run(p, st, month)[i].savings
    ensures forall i, j :: 0 <= i <= j < |Run(p, st, month)| ==>
              Run(p, st, month)[i].savings <= Run(p, st, month)[j].savings
    decreases if month <= p.months then p.months - month + 1 else 0
  {
    if month <= p.months && HasDebt(st) {
      var rows := Run(p, st, month);
      var next := NextState(p, st, month);
      var rest := Run(p, next, month + 1);
      RunSavingsMonotone(p, next, month + 1);
      RunStep(p, st, month);
      assert rows[0].savings == next.savings >= st.savings;
      assert forall i :: 1 <= i < |rows| ==> rows[i] == rest[i - 1];
    }
  }

  lemma {:induction false} RunSavingsConstant(p: Params, st: State, month: int)
    requires p.savingsShare == 0.0
    ensures forall i :: 0 <= i < |Run(p, st, month)| ==> Run(p, st, month)[i].savings == st.savings
    decreases if month <= p.months then p.months - month + 1 else 0
  {
    if month <= p.months && HasDebt(st) {
      var rows := Run(p, st, month);
      var next := NextState(p, st, month);
      var rest := Run(p, next, month + 1);
      RunSavingsConstant(p, next, month + 1);
      RunStep(p, st, month);
      assert forall i :: 1 <= i < |rows| ==> rows[i] == rest[i - 1];
    }
  }

  /** One pass of the loop: a month with debt inside the horizon emits its
      row and hands its end state to the next month; otherwise the loop ends. */
  lemma RunStep(p: Params, st: State, month: int)
    ensures month <= p.months && HasDebt(st) ==>
              Run(p, st, month) == [RowFor(p, st, month)] + Run(p, NextState(p, st, month), month + 1)
    ensures month > p.months || !HasDebt(st) ==> Run(p, st, month) == []
  {
  }

  /** One step of the trajectory, seen from its first month. */
  lemma StateFromStep(p: Params, st: State, month: int, k: nat)
    requires k >= 1
    ensures StateFrom(p, st, month, k) == StateFrom(p, NextState(p, st, month), month + 1, k - 1)
  {
  }

  /** Each row the loop emits describes the state reached by the months
      before it, and that state still had debt. */
  lemma RunFollowsTrajectory(p: Params, st: State, month: int)
    ensures forall i :: 0 <= i < |Run(p, st, month)| ==>
              && HasDebt(StateFrom(p, st, month, i))
              && Run(p, st, month)[i] == RowFor(p, StateFrom(p, st, month, i), month + i)
  {
    RunRowsFollowStates(p, st, month);
    RunStatesHaveDebt(p, st, month);
  }

  lemma {:induction false} RunRowsFollowStates(p: Params, st: State, month: int)
    ensures forall i :: 0 <= i < |Run(p, st, month)| ==>
              Run(p, st, month)[i] == RowFor(p, StateFrom(p, st, month, i), month + i)
    decreases if month <= p.months then p.months - month + 1 else 0
  {
    if month <= p.months && HasDebt(st) {
      var rows := Run(p, st, month);
      var next := NextState(p, st, month);
      var rest := Run(p, next, month + 1);
      RunRowsFollowStates(p, next, month + 1);
      RunStep(p, st, month);
      forall i | 1 <= i < |rows|
        ensures rows[i] == RowFor(p, StateFrom(p, st, month, i), month + i)
      {
        assert rows[i] == rest[i - 1];
        StateFromStep(p, st, month, i);
      }
    }
  }

  lemma {:induction false} RunStatesHaveDebt(p: Params, st: State, month: int)
    ensures forall i :: 0 <= i < |Run(p, st, month)| ==> HasDebt(StateFrom(p, st, month, i))
    decreases if month <= p.months then p.months - month + 1 else 0
  {
    if month <= p.months && HasDebt(st) {
      var next := NextState(p, st, month);
      var rest := Run(p, next, month + 1);
      RunStatesHaveDebt(p, next, month + 1);
      RunStep(p, st, month);
      forall i | 1 <= i < |rest| + 1 ensures HasDebt(StateFrom(p, st, month, i)) {
        StateFromStep(p, st, month, i);
      }
    }
  }

  /** The loop stops before the horizon only at a month that starts with no
      debt left. */
  lemma {:induction false} RunStopsOnlyWhenPaidOff(p: Params, st: State, month: int)
    ensures |Run(p, st, month)| < p.months - month + 1 ==>
              !HasDebt(StateFrom(p, st, month, |Run(p, st, month)|))
    decreases if month <= p.months then p.months - month + 1 else 0
  {
    if month <= p.months && HasDebt(st) {
      var next := NextState(p, st, month);
      var rest := Run(p, next, month + 1);
      RunStopsOnlyWhenPaidOff(p, next, month + 1);
      RunStep(p, st, month);
      StateFromStep(p, st, month, |rest| + 1);
    }
  }

  /** `Simulate` is the loop's rows, or the placeholder when there are none. */
  lemma SimulateIsRun(p: Params, loans: seq<Loan>)
    ensures Run(p, Initial(loans), 1) == [] ==> Simulate(p, loans) == [PlaceholderRow(p)]
    ensures Run(p, Initial(loans), 1) != [] ==> Simulate(p, loans) == Run(p, Initial(loans), 1)
    ensures Run(p, Initial(loans), 1) == [] <==> p.months < 1 || !HasDebt(Initial(loans))
  {
  }

  /** The placeholder comes back exactly when no month is simulated: the
      horizon is empty, or no loan starts above the paid-off threshold. */
  lemma SimulatePlaceholderIff(p: Params, loans: seq<Loan>)
    ensures (Simulate(p, loans) == [PlaceholderRow(p)])
              <==> (p.months < 1 || forall i :: 0 <= i < |loans| ==> !IsActive(loans[i]))
  {
    SimulateIsRun(p, loans);
    HasDebtIffSomeOwed(Initial(loans));
    var rows := Run(p, Initial(loans), 1);
    if rows != [] {
      assert rows[0].month == 1;
      assert Simulate(p, loans)[0] != PlaceholderRow(p);
    }
    if exists l :: l in loans && IsActive(l) {
      var l :| l in loans && IsActive(l);
      var i :| 0 <= i < |loans| && loans[i] == l;
    }
  }

  /** Every simulated row is the month computed from the state the earlier
      months left behind, and that state still had debt. */
  lemma SimulateFollowsTrajectory(p: Params, loans: seq<Loan>)
    ensures || Simulate(p, loans) == [PlaceholderRow(p)]
            || forall i :: 0 <= i < |Simulate(p, loans)| ==>
                 && HasDebt(StateAt(p, loans, i))
                 && Simulate(p, loans)[i] == RowFor(p, StateAt(p, loans, i), i + 1)
  {
    SimulateIsRun(p, loans);
    RunFollowsTrajectory(p, Initial(loans), 1);
  }

  /** A row of month `m` reports the income in force in month `m` and the
      start date moved `m - 1` months on; the placeholder, month 0, reports
      the start text and the base income. */
  lemma SimulateRowLabels(p: Params, loans: seq<Loan>)
    ensures forall i :: 0 <= i < |Simulate(p, loans)| && Simulate(p, loans)[i].month > 0 ==>
              && Simulate(p, loans)[i].incomeUsed == IncomeFor(p, Simulate(p, loans)[i].month)
              && Simulate(p, loans)[i].date
                 == MonthOf(AddMonths(p.start.first, Simulate(p, loans)[i].month - 1))
    ensures Simulate(p, loans) == [PlaceholderRow(p)] ==>
              && Simulate(p, loans)[0].date == Verbatim(p.start.text)
              && Simulate(p, loans)[0].incomeUsed == p.baseIncome
  {
    SimulateFollowsTrajectory(p, loans);
  }

  lemma SimulateRowsSound(p: Params, loans: seq<Loan>)
    requires MinsNonNegative(loans)
    ensures forall i :: 0 <= i < |Simulate(p, loans)| ==> RowSound(Simulate(p, loans)[i])
  {
    SimulateIsRun(p, loans);
    RunRowsSound(p, Initial(loans), 1);
  }

  /** With a non-negative savings share, savings never fall from one month
      to the next and never drop below zero. */
  lemma SimulateSavingsNonDecreasing(p: Params, loans: seq<Loan>)
    requires p.savingsShare >= 0.0
    ensures forall i :: 0 <= i < |Simulate(p, loans)| ==> Simulate(p, loans)[i].savings >= 0.0
    ensures forall i, j :: 0 <= i <= j < |Simulate(p, loans)| ==>
              Simulate(p, loans)[i].savings <= Simulate(p, loans)[j].savings
  {
    SimulateIsRun(p, loans);
    RunSavingsMonotone(p, Initial(loans), 1);
  }

  /** With nothing sent to savings, savings stay at zero and the net
      position is the remaining debt, negated. */
  lemma SimulateNoSavingsWhenShareZero(p: Params, loans: seq<Loan>)
    requires p.savingsShare == 0.0
    ensures forall i :: 0 <= i < |Simulate(p, loans)| ==>
              Simulate(p, loans)[i].savings == 0.0 && Simulate(p, loans)[i].net == -Simulate(p, loans)[i].debtEnd
  {
    SimulateIsRun(p, loans);
    RunSavingsConstant(p, Initial(loans), 1);
    SimulateFollowsTrajectory(p, loans);
    var rows := Simulate(p, loans);
    if rows != [PlaceholderRow(p)] {
      forall i | 0 <= i < |rows| ensures rows[i].net == rows[i].savings - rows[i].debtEnd {
        assert rows[i] == RowFor(p, StateAt(p, loans, i), i + 1);
      }
    }
  }

  /** With everything sent to savings, each month only pays the minimums
      (capped at the balances) and keeps the loans in their order. */
  lemma SimulateSavingsOnlyPaysMinimums(p: Params, loans: seq<Loan>)
    requires p.savingsShare == 1.0
    ensures || Simulate(p, loans) == [PlaceholderRow(p)]
            || forall i :: 0 <= i < |Simulate(p, loans)| ==>
                 && Simulate(p, loans)[i].debtEnd
                    == Simulate(p, loans)[i].debtStart - TotalMinimumPaid(Active(StateAt(p, loans, i).loans))
                 && StateAt(p, loans, i + 1).loans == PayMinimums(Active(StateAt(p, loans, i).loans))
  {
    SimulateFollowsTrajectory(p, loans);
    var rows := Simulate(p, loans);
    if rows != [PlaceholderRow(p)] {
      forall i | 0 <= i < |rows|
        ensures rows[i].debtEnd == rows[i].debtStart - TotalMinimumPaid(Active(StateAt(p, loans, i).loans))
        ensures StateAt(p, loans, i + 1).loans == PayMinimums(Active(StateAt(p, loans, i).loans))
      {
        SavingsOnlyMonth(p, StateAt(p, loans, i), i + 1);
        StateAtStep(p, loans, i);
      }
    }
  }

  /** The state after month `k + 1` is that month's step from the state
      before it. */
  lemma {:induction false} StateFromLast(p: Params, st: State, month: int, k: nat)
    ensures StateFrom(p, st, month, k + 1) == NextState(p, StateFrom(p, st, month, k), month + k)
    decreases k
  {
    if k > 0 {
      StateFromLast(p, NextState(p, st, month), month + 1, k - 1);
    }
  }

  lemma StateAtStep(p: Params, loans: seq<Loan>, k: nat)
    ensures StateAt(p, loans, k + 1) == NextState(p, StateAt(p, loans, k), k + 1)
  {
    StateFromLast(p, Initial(loans), 1, k);
  }

  /** The loop runs to the end of the horizon exactly when every month of it
      starts with some debt left. */
  lemma SimulateRunsToHorizonIff(p: Params, loans: seq<Loan>)
    requires p.months >= 1
    ensures (Simulate(p, loans)[|Simulate(p, loans)| - 1].month == p.months)
              <==> (forall k :: 0 <= k < p.months ==> HasDebt(StateAt(p, loans, k)))
  {
    SimulateIsRun(p, loans);
    var rows := Run(p, Initial(loans), 1);
    RunFollowsTrajectory(p, Initial(loans), 1);
    RunStopsOnlyWhenPaidOff(p, Initial(loans), 1);
    if rows == [] {
      assert !HasDebt(StateAt(p, loans, 0));
    } else if |rows| < p.months {
      assert !HasDebt(StateAt(p, loans, |rows|));
    } else {
      forall k | 0 <= k < p.months ensures HasDebt(StateAt(p, loans, k)) {
        assert HasDebt(StateFrom(p, Initial(loans), 1, k));
      }
    }
  }

  /** The loop stops at the first month that starts with nothing left above
      the paid-off threshold: every earlier month had debt. */
  lemma SimulateStopsAtPayoff(p: Params, loans: seq<Loan>)
    requires Simulate(p, loans) != [PlaceholderRow(p)]
    ensures forall k :: 0 <= k < |Simulate(p, loans)| ==> HasDebt(StateAt(p, loans, k))
    ensures |Simulate(p, loans)| < p.months ==>
              forall i :: 0 <= i < |StateAt(p, loans, |Simulate(p, loans)|).loans| ==>
                !IsActive(StateAt(p, loans, |Simulate(p, loans)|).loans[i])
  {
    SimulateIsRun(p, loans);
    var rows := Run(p, Initial(loans), 1);
    RunFollowsTrajectory(p, Initial(loans), 1);
    RunStopsOnlyWhenPaidOff(p, Initial(loans), 1);
    var last := StateAt(p, loans, |rows|);
    HasDebtIffSomeOwed(last);
    if |rows| < p.months {
      forall i | 0 <= i < |last.loans| ensures !IsActive(last.loans[i]) {
        assert last.loans[i] in last.loans;
      }
    }
  }
}
