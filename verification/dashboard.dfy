/** The call the dashboard makes: the sidebar values turned into the
    simulation's parameters, and what each strategy entry guarantees about
    the resulting plan. */
module Dashboard {
  import opened Loans
  import opened Calendar
  import opened Settings
  import opened Engine

  /** The fixed start date the dashboard passes. */
  const DashboardStart: StartDate := StartDate("2025-10-01", YearMonth(2025, 10))

  /** The sidebar inputs: the income change is only passed on when its
      checkbox is ticked. */
  datatype Sidebar = Sidebar(
    income: real, rent: real, foodBills: real, other: real,
    jobChange: bool, changeMonth: int, newIncome: real,
    strategy: Strategy, customSplit: real, months: int)

  function DashboardParams(s: Sidebar): (p: Params)
    ensures p.baseIncome == s.income && p.months == s.months && p.start == DashboardStart
    ensures p.expenses == TotalExpenses(s.rent, s.foodBills, s.other)
    ensures p.savingsShare == SavingsShare(s.strategy, s.customSplit)
    ensures !s.jobChange ==> p.changeMonth == None && p.newIncome == None
    ensures s.jobChange ==> p.changeMonth == Some(s.changeMonth) && p.newIncome == Some(s.newIncome)
  {
    Params(s.income, TotalExpenses(s.rent, s.foodBills, s.other),
           SavingsShare(s.strategy, s.customSplit), s.months, DashboardStart,
           if s.jobChange then Some(s.changeMonth) else None,
           if s.jobChange then Some(s.newIncome) else None)
  }

  /** Without the checkbox, or with a new income of zero, every month uses
      the current income. */
  lemma NoChangeKeepsIncome(s: Sidebar, month: int)
    requires !s.jobChange || s.newIncome == 0.0
    ensures IncomeFor(DashboardParams(s), month) == s.income
  {
  }

  /** Whatever the strategy, with the slider inside its range the savings
      column never falls. */
  lemma PlanSavingsNeverFall(s: Sidebar, loans: seq<Loan>)
    requires 0.0 <= s.customSplit <= 1.0
    ensures forall i, j :: 0 <= i <= j < |Simulate(DashboardParams(s), loans)| ==>
              Simulate(DashboardParams(s), loans)[i].savings <= Simulate(DashboardParams(s), loans)[j].savings
  {
    SimulateSavingsNonDecreasing(DashboardParams(s), loans);
  }

  /** "Aggressive" never saves: savings stay at zero in every row. */
  lemma AggressiveNeverSaves(s: Sidebar, loans: seq<Loan>)
    requires s.strategy == Aggressive
    ensures forall i :: 0 <= i < |Simulate(DashboardParams(s), loans)| ==>
              Simulate(DashboardParams(s), loans)[i].savings == 0.0
  {
    SimulateNoSavingsWhenShareZero(DashboardParams(s), loans);
  }

  /** "Safety First" pays only the minimums: each month's debt falls by
      the minimums actually paid and by nothing more. */
  lemma SafetyFirstPaysOnlyMinimums(s: Sidebar, loans: seq<Loan>)
    requires s.strategy == SafetyFirst
    ensures || Simulate(DashboardParams(s), loans) == [PlaceholderRow(DashboardParams(s))]
            || forall i :: 0 <= i < |Simulate(DashboardParams(s), loans)| ==>
                 Simulate(DashboardParams(s), loans)[i].debtEnd
                   == Simulate(DashboardParams(s), loans)[i].debtStart
                      - TotalMinimumPaid(Active(StateAt(DashboardParams(s), loans, i).loans))
  {
    SimulateSavingsOnlyPaysMinimums(DashboardParams(s), loans);
  }

  /** "Balanced 50/50" sends the same amount to debt and to savings. */
  lemma BalancedSplitsEvenly(s: Sidebar, active: seq<Loan>, month: int)
    requires s.strategy == Balanced
    ensures Allocate(DashboardParams(s), active, month).toDebt
              == Allocate(DashboardParams(s), active, month).toSavings
              == Allocate(DashboardParams(s), active, month).leftover / 2.0
  {
  }

  /** The sample table, simulated with the dashboard's settings, starts the
      first month owing 8235.20. */
  lemma DefaultPlanStartsAtSampleTotal(s: Sidebar)
    requires s.months >= 1
    ensures Simulate(DashboardParams(s), DefaultLoans())[0].debtStart == 8235.20
  {
    var p := DashboardParams(s);
    DefaultLoansTotals();
    RunStep(p, Initial(DefaultLoans()), 1);
    SimulateIsRun(p, DefaultLoans());
  }
}
