# Debt & Savings Dashboard: the paydown simulation, modelled in Dafny

The dashboard plans how a household pays down a table of loans. Each loan has
a name, a balance, an APR and a minimum payment. The planner steps month by
month up to a horizon. In each month it:

- drops every loan whose balance is at most 0.01 and stops if nothing is owed;
- picks that month's income, applying an optional future income change;
- pays every loan its minimum, capped at the balance;
- works out the leftover as income less expenses less the nominal minimums,
  never below zero;
- divides the leftover between extra debt payment and savings by the
  strategy's savings share;
- when there is extra to pay, sorts the loans by balance and puts all of it
  on the first (smallest) one, capped at its balance, with nothing passed on
  to the next; a month with no extra payment leaves the loans in their
  current order;
- adds the savings part to the running savings and reports a row: month, date
  label, debt at start and end, savings, net position (savings less ending
  debt) and the income used.

If no month is reported, the plan is a single placeholder row: month 0, the
start date's text, zeros, and the base income.

The project models this loop (`simulate`) as pure functions over immutable
data, together with the strategy menu, the expense sum and the sample loan
table. Money is `real`. The loop is a recursion bounded by the horizon, and
the loan list is part of the state carried from month to month. So the order
left by one month's sort is the order the next month starts from, as in the
program.

Modules, one per file:

- `Loans` (`loans.dfy`): the loan record, the paid-off filter (balance above
  0.01 stays) and the totals.
- `BalanceSort` (`sorting.dfy`): the stable sort by balance, and a proof that
  it is the only sequence that is sorted and keeps equal balances in order.
- `Payments` (`payments.dfy`): the minimum step, the leftover, the split, and
  the extra payment to the smallest loan.
- `Calendar` (`calendar.dfy`): the month label, a (year, month) pair advanced
  by whole months.
- `Settings` (`settings.dfy`): strategy to savings share, the expense sum and
  the sample table.
- `Engine` (`engine.dfy`): parameters, state, rows, one month's step, the loop
  `Run`, `Simulate` and the properties of whole plans.
- `Dashboard` (`dashboard.dfy`): the sidebar values turned into the
  simulation's parameters, and what each strategy guarantees.
- `Scenarios` (`scenarios.dfy`): worked examples on small inputs.

Three behaviours of the program are reproduced on purpose:

- The sort reorders the working list, and later months keep that order. This
  matters for which of two equal balances is paid first (`Engine.MonthLoanOrder`;
  the filter itself keeps the order, `Loans.ActiveAppend`).
- The loop's test "total at month start is not positive" can only hold once no
  loan is above 0.01, because every loan left after the filter is above it
  (`Engine.HasDebtIffSomeOwed`).
- The income change is applied only when both the change month and the new
  income are truthy. A new income of 0, or a change month of 0, leaves the base
  income in force (`Engine.IncomeFor`, `Scenarios.ExampleZeroNewIncomeIgnored`).

## Model

The lemmas below are about these definitions: `Loans.Active` is the paid-off
filter (debt_dashboard_app.py:35); `Payments.PayMinimums` the minimum step
(:48-50); `BalanceSort.SortByBalance` the sort (:62); `Payments.ApplyExtra` the
extra payment (:61-64); `Engine.Allocate` the leftover and its split (:42-58);
`Engine.NextState` and `Engine.RowFor` one month's end state and row (:47-79);
`Engine.Run` the loop and `Engine.Simulate` the whole function (:27-93);
`Engine.PlaceholderRow` the row returned when no month is reported (:82-91);
`Dashboard.DashboardParams` the sidebar values passed to the simulation
(:101-146).

| member | source | states |
|---|---|---|
| `Loans.ActiveSpec` | debt_dashboard_app.py:35 | a loan is in the filtered list exactly when it is in the input and above 0.01; no loan appears more often than in the input |
| `Loans.ActiveAppend` | debt_dashboard_app.py:35 | filtering a joined list joins the filtered parts, and a single loan is kept exactly when it is above 0.01: so the result is every surviving occurrence, in the input order |
| `Loans.ActiveIdempotent` | debt_dashboard_app.py:35 | filtering an already filtered list changes nothing |
| `Loans.ActiveKeepsAllOwed` | debt_dashboard_app.py:35 | when every loan is above 0.01 the filter keeps the list as it is |
| `Loans.ActiveKeepsMins` | debt_dashboard_app.py:35 | the filter keeps non-negative minimums non-negative |
| `Loans.TotalBalanceAppend` | debt_dashboard_app.py:36 | the total of two lists joined is the sum of their totals |
| `Loans.TotalBalanceNonNegative` | debt_dashboard_app.py:36 | a list of non-negative balances has a non-negative total |
| `Loans.TotalOfActiveLoans` | debt_dashboard_app.py:36-38 | a filtered list totals 0 when empty and more than 0.01 otherwise |
| `Loans.ActiveTotalPositiveIffSomeOwed` | debt_dashboard_app.py:35-39 | the start total is positive exactly when some loan is above 0.01, that is when the filtered list is non-empty |
| `BalanceSort.FirstMinIndex` | debt_dashboard_app.py:62-63 | the index of the first loan of least balance: none is smaller, and every earlier one is strictly larger |
| `BalanceSort.InsertPermutes` | debt_dashboard_app.py:62 | inserting a loan adds exactly that loan |
| `BalanceSort.InsertSorted` | debt_dashboard_app.py:62 | inserting into a sorted list keeps it sorted |
| `BalanceSort.InsertKeepsTies` | debt_dashboard_app.py:62 | an inserted loan goes before the loans already there with its balance |
| `BalanceSort.InsertTotal` | debt_dashboard_app.py:62 | inserting a loan raises the total by its balance |
| `BalanceSort.SortPermutes` | debt_dashboard_app.py:62 | sorting only reorders the loans |
| `BalanceSort.SortIsSorted` | debt_dashboard_app.py:62 | the sorted list has non-decreasing balances |
| `BalanceSort.SortIsStable` | debt_dashboard_app.py:62 | loans of equal balance keep their relative order |
| `BalanceSort.StableSortIsUnique` | debt_dashboard_app.py:62 | two sorted lists with the same equal-balance runs are equal |
| `BalanceSort.SortIsTheStableSort` | debt_dashboard_app.py:62 | any sorted, order-keeping rearrangement of the list is the sort's result |
| `BalanceSort.SortHeadIsFirstMinimum` | debt_dashboard_app.py:62-63 | the loan sorted to the front is the first loan of least balance in the current order |
| `BalanceSort.SortTail` | debt_dashboard_app.py:62 | behind the front loan come all the other loans |
| `BalanceSort.SortKeepsTotal` | debt_dashboard_app.py:62 | sorting keeps the total owed |
| `Payments.PayMinimumsPointwise` | debt_dashboard_app.py:48-50 | each loan's balance falls by its minimum, down to 0 at most, and nothing else about it changes |
| `Payments.PayMinimumsKeepsInvariants` | debt_dashboard_app.py:48-50 | after the minimums every balance is non-negative and every loan's minimum is unchanged, so non-negative minimums stay non-negative |
| `Payments.PayMinimumsTotal` | debt_dashboard_app.py:48-53 | the total falls by the minimums actually paid, which lie between 0 and the nominal minimums |
| `Payments.Leftover` | debt_dashboard_app.py:54 | the leftover is non-negative, at least the income less expenses and minimums, and equal to 0 or to that difference |
| `Payments.SplitLeftover` | debt_dashboard_app.py:57-58 | debt part plus savings part is the leftover; signs follow the share; the savings part is the share times the leftover; share 0 saves nothing, share 1 pays no extra, share 0.5 halves it |
| `Payments.ExtraKeepsInvariants` | debt_dashboard_app.py:61-64 | the extra payment keeps non-negative balances and non-negative minimums non-negative |
| `Payments.PayExtraFloorsAtZero` | debt_dashboard_app.py:63-64 | paying a loan the capped extra leaves its balance less the extra, or 0 |
| `Payments.ExtraGoesToSmallest` | debt_dashboard_app.py:61-64 | only the first smallest loan is paid, capped at its balance; the rest are unchanged and no excess cascades |
| `Payments.PaymentsTotal` | debt_dashboard_app.py:47-69 | a month lowers the total by the minimums actually paid plus the capped extra |
| `Payments.PaymentsNeverRaiseDebt` | debt_dashboard_app.py:47-69 | with non-negative minimums and balances, the end total is between 0 and the start total |
| `Calendar.AddMonths` | debt_dashboard_app.py:70 | the label month is a valid month exactly `k` months after the start |
| `Calendar.AddMonthsLaws` | debt_dashboard_app.py:70 | moving by 0 months keeps a date; moves compose |
| `Calendar.NextMonth` | debt_dashboard_app.py:70 | one month after December is January of the next year; otherwise the next month of the same year |
| `Settings.SavingsShare` | debt_dashboard_app.py:118-128 | Safety First gives 1, Aggressive 0, Balanced 0.5 and Custom the slider value; so the share lies in [0,1] whenever the slider does |
| `Settings.TotalExpenses` | debt_dashboard_app.py:105 | expenses are rent plus food and bills plus other, and at least each of them |
| `Settings.DefaultLoans` | debt_dashboard_app.py:13-22 | six sample loans, all owed, all with APR 0 and non-negative minimums |
| `Settings.DefaultLoansTotals` | debt_dashboard_app.py:15-20 | the sample table survives the filter and owes 8235.20 with 210 of minimums |
| `Engine.IncomeFor` | debt_dashboard_app.py:42-45 | base income unless both change month and new income are set and non-zero and the month has been reached |
| `Engine.IncomeChangeIsPermanent` | debt_dashboard_app.py:42-45 | once the new income applies, it applies in every later month |
| `Engine.Allocate` | debt_dashboard_app.py:42-58 | the income for the month, the nominal minimums as mandatory, the leftover's bounds, savings part = share × leftover, debt part the rest, and their signs |
| `Engine.HasDebtIffSomeOwed` | debt_dashboard_app.py:35-39 | a month runs exactly when some loan is above 0.01 |
| `Engine.MonthKeepsInvariants` | debt_dashboard_app.py:35-64 | after a month balances are non-negative, minimums stay non-negative, and the list has one entry per loan that survived the filter |
| `Engine.MonthAccounting` | debt_dashboard_app.py:47-77 | a row's end debt is start debt less capped minimums less capped extra; savings grow by the savings part; net is savings less end debt |
| `Engine.MonthNeverRaisesDebt` | debt_dashboard_app.py:36-69 | with non-negative minimums, 0 <= end debt <= start debt |
| `Engine.MonthLoanOrder` | debt_dashboard_app.py:61-62 | without extra the list keeps its order; with extra the next month starts from the sorted order |
| `Engine.SavingsOnlyMonth` | debt_dashboard_app.py:57-64 | with share 1 only the capped minimums are paid and the whole leftover is saved |
| `Engine.Run` | debt_dashboard_app.py:34-39 | at most one row per remaining month, numbered consecutively from the first |
| `Engine.RunRowsSound` | debt_dashboard_app.py:34-77 | with non-negative minimums every row has 0 <= end debt <= start debt and net = savings − end debt |
| `Engine.RunSavingsMonotone` | debt_dashboard_app.py:57-67 | with a non-negative share, savings never fall from row to row |
| `Engine.RunSavingsConstant` | debt_dashboard_app.py:58-67 | with share 0, savings never move |
| `Engine.RunFollowsTrajectory` | debt_dashboard_app.py:34-79 | row `i` of the loop is the row computed from the state reached after `i` months (`StateFrom`) for month `month + i`, and that state still had debt |
| `Engine.RunStopsOnlyWhenPaidOff` | debt_dashboard_app.py:34-39 | the loop ends before the horizon only at a month that starts without debt |
| `Engine.Simulate` | debt_dashboard_app.py:27-93 | never empty: the placeholder, or rows numbered 1..k with k at most the horizon |
| `Engine.SimulatePlaceholderIff` | debt_dashboard_app.py:82-91 | the placeholder comes back exactly when the horizon is empty or no loan starts above 0.01 |
| `Engine.SimulateFollowsTrajectory` | debt_dashboard_app.py:34-79 | every simulated row is the month computed from the state before it, which had debt |
| `Engine.SimulateRowLabels` | debt_dashboard_app.py:70-90 | month `m`'s row has the income in force in month `m` and the start advanced `m − 1` months; the placeholder has the start text and the base income |
| `Engine.SimulateRowsSound` | debt_dashboard_app.py:69-77 | with non-negative minimums every row has 0 <= end debt <= start debt and net = savings − end debt |
| `Engine.SimulateSavingsNonDecreasing` | debt_dashboard_app.py:57-67 | with a non-negative share savings are never negative and never fall |
| `Engine.SimulateNoSavingsWhenShareZero` | debt_dashboard_app.py:58-77 | with share 0 savings stay 0 and net is minus the end debt |
| `Engine.SimulateSavingsOnlyPaysMinimums` | debt_dashboard_app.py:57-64 | with share 1 each month lowers the debt by the capped minimums only and keeps the loan order |
| `Engine.SimulateRunsToHorizonIff` | debt_dashboard_app.py:34-39 | the last row is the horizon month exactly when every month of the horizon starts with debt |
| `Engine.SimulateStopsAtPayoff` | debt_dashboard_app.py:34-39 | every reported month started with debt, and an early stop comes at a month with no loan above 0.01 |
| `Dashboard.NoChangeKeepsIncome` | debt_dashboard_app.py:109-114 | without the box, or with a new income of 0, every month uses the current income |
| `Dashboard.PlanSavingsNeverFall` | debt_dashboard_app.py:118-146 | with the slider in range, every strategy gives a plan whose savings never fall |
| `Dashboard.AggressiveNeverSaves` | debt_dashboard_app.py:123-124 | "Aggressive" keeps savings at 0 in every row |
| `Dashboard.SafetyFirstPaysOnlyMinimums` | debt_dashboard_app.py:121-122 | "Safety First" lowers the debt by the capped minimums only |
| `Dashboard.BalancedSplitsEvenly` | debt_dashboard_app.py:125-126 | "Balanced 50/50" sends half the leftover to each side |
| `Dashboard.DefaultPlanStartsAtSampleTotal` | debt_dashboard_app.py:133-146 | the sample table's plan starts month 1 owing 8235.20 |
| `Scenarios.ExampleTotals` | debt_dashboard_app.py:35-36 | loans 100/20 and 50/10 are both kept and owe 150 with 30 of minimums |
| `Scenarios.ExampleMinimums` | debt_dashboard_app.py:48-50 | their minimums leave 80 and 40 in list order |
| `Scenarios.ExampleExtraDoesNotCascade` | debt_dashboard_app.py:61-64 | an extra 170 clears the 40 loan, moves it to the front, and leaves the 80 loan untouched |
| `Scenarios.ExampleFirstAllocation` | debt_dashboard_app.py:53-58 | income 500, expenses 300 and share 0 send 170 to debt and nothing to savings |
| `Scenarios.ExampleFirstMonth` | debt_dashboard_app.py:47-77 | month 1 goes from 150 to 80, with balances 0 and 80 |
| `Scenarios.ExampleSecondActive` | debt_dashboard_app.py:35-36 | month 2 drops the paid-off loan |
| `Scenarios.ExampleSecondPayments` | debt_dashboard_app.py:48-64 | month 2 pays 20 of minimum and 60 of its 180 extra |
| `Scenarios.ExampleSecondMonth` | debt_dashboard_app.py:47-77 | month 2 goes from 80 to 0 |
| `Scenarios.ExampleThirdMonthStops` | debt_dashboard_app.py:35-39 | month 3 finds nothing owed and ends the loop |
| `Scenarios.ExampleRunFromFirstMonth` | debt_dashboard_app.py:34-79 | month 1 emits its row and hands over to month 2 |
| `Scenarios.ExampleRunFromSecondMonth` | debt_dashboard_app.py:34-79 | month 2 emits the last row |
| `Scenarios.ExampleRows` | debt_dashboard_app.py:27-93 | the plan is exactly the rows of months 1 and 2 |
| `Scenarios.ExamplePaidOffInTwoMonths` | debt_dashboard_app.py:27-93 | the plan has two rows, ending at 80 and at 0 |
| `Scenarios.ExampleNoLoans` | debt_dashboard_app.py:82-91 | an empty table gives the placeholder row |
| `Scenarios.ExampleExtraLostOnClearedLoan` | debt_dashboard_app.py:48-64 | with loans 100/20 and 10/10 and an extra 170, the second loan is cleared by its minimum, sorts first at 0, takes 0 of the extra, and the 80 loan is untouched: the extra is lost that month |
| `Scenarios.ExampleZeroNewIncomeIgnored` | debt_dashboard_app.py:43-45 | a new income of 0 keeps the base income after the change month |

## Left out

- The Streamlit page: configuration, sidebar widgets, data editor, session
  state, title, table, "Debt-Free" metric, chart and CSV download
  (debt_dashboard_app.py:8, 98-161). This is interface plumbing. Only the
  values the sidebar hands to `simulate` are modelled (`Dashboard.Sidebar`).
  The widgets' bounds (minimum 0 for money inputs, 12-180 for the horizon,
  0-1 for the slider) are not assumed. Lemmas that need them state them as
  hypotheses.
- pandas: building the sample table, converting the loan table to records, and
  building the result frame (lines 22, 29, 83, 93). Loans and rows are plain
  datatypes holding numbers. Blank cells in the loan table, which reach the
  program as NaN, are not modelled. A blank balance makes the loan fail the
  filter's comparison, so it is silently dropped. A blank minimum turns that
  loan's balance into NaN through the minimum payment, the leftover then
  comes out as 0, and the loan is dropped by the next month's filter.
- Date parsing and formatting: `strptime`, `DateOffset` and `strftime("%b %Y")`
  (lines 31, 70). The caller passes the start date as its text together with
  the (year, month) it names. A row's label is that pair advanced by
  `month − 1` months, not the formatted string. An unparseable start date,
  which raises in the program, is not modelled.
- `round(…, 2)` on the reported amounts (lines 74-77), and binary floating
  point. Amounts are exact reals, and the rows carry the unrounded values.
- APR. It is carried in the table but never used in the arithmetic (lines
  15-20).
- The strategy menu's labels. The four entries are an enumeration, and the
  program's catch-all `else` is the `Custom` entry.
- Default argument values of `simulate` (line 27-28). The dashboard always
  passes every argument, and `Engine.Params` has no defaults.
