/** Worked examples of the simulation on small inputs. */
module Scenarios {
  import opened Loans
  import opened BalanceSort
  import opened Payments
  import opened Calendar
  import opened Engine

  const LoanA: Loan := Loan("A", 100.0, 0.0, 20.0)
  const LoanB: Loan := Loan("B", 50.0, 0.0, 10.0)
  const LoanC: Loan := Loan("C", 10.0, 0.0, 10.0)

  /** Income 500, expenses 300, everything left over goes to debt. */
  function AggressiveParams(): Params
  {
    Params(500.0, 300.0, 0.0, 12, StartDate("2025-01-01", YearMonth(2025, 1)), None, None)
  }

  /** The minimum step on the two loans leaves 80 and 40, in list order. */
  lemma ExampleMinimums()
    ensures PayMinimums([LoanA, LoanB]) == [LoanA.(balance := 80.0), LoanB.(balance := 40.0)]
  {
    assert [LoanA, LoanB][1..] == [LoanB];
  }

  /** The two loans owe 150 in total with 30 of minimums. */
  lemma ExampleTotals()
    ensures Active([LoanA, LoanB]) == [LoanA, LoanB]
    ensures TotalBalance([LoanA, LoanB]) == 150.0
    ensures TotalMinimum([LoanA, LoanB]) == 30.0
  {
    var loans := [LoanA, LoanB];
    ActiveKeepsAllOwed(loans);
    assert loans[1..] == [LoanB];
    assert loans[1..][1..] == [];
    assert TotalBalance([LoanB]) == 50.0;
    assert TotalMinimum([LoanB]) == 10.0;
  }

  /** The extra 170 goes to the smaller loan only: it is paid off and the
      remaining 130 is not carried over to the other loan. */
  lemma ExampleExtraDoesNotCascade()
    ensures ApplyExtra([LoanA.(balance := 80.0), LoanB.(balance := 40.0)], 170.0)
              == [LoanB.(balance := 0.0), LoanA.(balance := 80.0)]
  {
    var a := LoanA.(balance := 80.0);
    var b := LoanB.(balance := 40.0);
    var paid := [a, b];
    assert paid[1..] == [b];
    assert SortByBalance([b]) == Insert(b, []) == [b];
    assert Insert(a, [b]) == [b] + Insert(a, []) == [b, a];
    assert SortByBalance(paid) == [b, a];
  }

  /** Month 1 of the example divides the leftover 170 entirely to debt. */
  lemma ExampleFirstAllocation()
    ensures Allocate(AggressiveParams(), [LoanA, LoanB], 1).toDebt == 170.0
    ensures Allocate(AggressiveParams(), [LoanA, LoanB], 1).toSavings == 0.0
  {
    ExampleTotals();
  }

  /** Month 1 of the example: the debt goes from 150 to 80, the smaller loan
      is paid off and moved to the front, and nothing is saved. */
  lemma ExampleFirstMonth()
    ensures NextState(AggressiveParams(), Initial([LoanA, LoanB]), 1)
              == State([LoanB.(balance := 0.0), LoanA.(balance := 80.0)], 0.0)
    ensures RowFor(AggressiveParams(), Initial([LoanA, LoanB]), 1).debtStart == 150.0
    ensures RowFor(AggressiveParams(), Initial([LoanA, LoanB]), 1).debtEnd == 80.0
    ensures RowFor(AggressiveParams(), Initial([LoanA, LoanB]), 1).savings == 0.0
  {
    var after := [LoanB.(balance := 0.0), LoanA.(balance := 80.0)];
    ExampleTotals();
    ExampleFirstAllocation();
    ExampleMinimums();
    ExampleExtraDoesNotCascade();
    assert PayMonth(AggressiveParams(), Initial([LoanA, LoanB]), 1) == after;
    assert after[1..] == [LoanA.(balance := 80.0)];
    assert after[1..][1..] == [];
    assert TotalBalance(after) == 80.0;
  }

  /** The state after month 1 of the example. */
  function AfterFirstMonth(): State
  {
    State([LoanB.(balance := 0.0), LoanA.(balance := 80.0)], 0.0)
  }

  /** Month 2 drops the paid-off loan from the list it pays. */
  lemma ExampleSecondActive()
    ensures Active(AfterFirstMonth().loans) == [LoanA.(balance := 80.0)]
    ensures TotalBalance([LoanA.(balance := 80.0)]) == 80.0
    ensures TotalMinimum([LoanA.(balance := 80.0)]) == 20.0
  {
    var a := LoanA.(balance := 80.0);
    var loans := AfterFirstMonth().loans;
    assert loans[1..] == [a];
    assert Active([a]) == [a] + Active([]);
  }

  /** Month 2 clears the remaining loan: 20 of minimum and 60 of the 180
      extra. */
  lemma ExampleSecondPayments()
    ensures Allocate(AggressiveParams(), [LoanA.(balance := 80.0)], 2).toDebt == 180.0
    ensures Allocate(AggressiveParams(), [LoanA.(balance := 80.0)], 2).toSavings == 0.0
    ensures ApplyExtra(PayMinimums([LoanA.(balance := 80.0)]), 180.0) == [LoanA.(balance := 0.0)]
  {
    var a := LoanA.(balance := 80.0);
    ExampleSecondActive();
    assert PayMinimums([a]) == [a.(balance := 60.0)];
    assert SortByBalance([a.(balance := 60.0)]) == Insert(a.(balance := 60.0), []);
  }

  /** Month 2 of the example takes the debt from 80 to nothing. */
  lemma ExampleSecondMonth()
    ensures NextState(AggressiveParams(), AfterFirstMonth(), 2) == State([LoanA.(balance := 0.0)], 0.0)
    ensures RowFor(AggressiveParams(), AfterFirstMonth(), 2).debtStart == 80.0
    ensures RowFor(AggressiveParams(), AfterFirstMonth(), 2).debtEnd == 0.0
  {
    var st := AfterFirstMonth();
    var a := LoanA.(balance := 80.0);
    ExampleSecondActive();
    ExampleSecondPayments();
    assert Active(st.loans) == [a];
    assert PayMonth(AggressiveParams(), st, 2) == [LoanA.(balance := 0.0)];
    assert TotalBalance([LoanA.(balance := 0.0)]) == 0.0;
  }

  /** After month 2 no loan is above the threshold, so month 3 stops the
      loop. */
  lemma ExampleThirdMonthStops()
    ensures Run(AggressiveParams(), State([LoanA.(balance := 0.0)], 0.0), 3) == []
  {
    var last := State([LoanA.(balance := 0.0)], 0.0);
    assert Active(last.loans) == [];
    RunStep(AggressiveParams(), last, 3);
  }

  lemma ExampleRunFromSecondMonth()
    ensures Run(AggressiveParams(), AfterFirstMonth(), 2) == [RowFor(AggressiveParams(), AfterFirstMonth(), 2)]
  {
    ExampleSecondActive();
    ExampleSecondMonth();
    ExampleThirdMonthStops();
    assert HasDebt(AfterFirstMonth());
    RunStep(AggressiveParams(), AfterFirstMonth(), 2);
  }

  lemma ExampleRunFromFirstMonth()
    ensures Run(AggressiveParams(), Initial([LoanA, LoanB]), 1)
              == [RowFor(AggressiveParams(), Initial([LoanA, LoanB]), 1)] + Run(AggressiveParams(), AfterFirstMonth(), 2)
  {
    var st := Initial([LoanA, LoanB]);
    ExampleTotals();
    ExampleFirstMonth();
    assert HasDebt(st);
    RunStep(AggressiveParams(), st, 1);
  }

  /** The example's rows are those of months 1 and 2. */
  lemma ExampleRows()
    ensures Simulate(AggressiveParams(), [LoanA, LoanB])
              == [RowFor(AggressiveParams(), Initial([LoanA, LoanB]), 1), RowFor(AggressiveParams(), AfterFirstMonth(), 2)]
  {
    var p := AggressiveParams();
    var st := Initial([LoanA, LoanB]);
    ExampleRunFromFirstMonth();
    ExampleRunFromSecondMonth();
    var rows := Run(p, st, 1);
    assert rows == [RowFor(p, st, 1)] + [RowFor(p, AfterFirstMonth(), 2)];
    SimulateIsRun(p, [LoanA, LoanB]);
  }

  /** The example ends after two months, when no loan is left above the
      paid-off threshold: well inside its twelve-month horizon. */
  lemma ExamplePaidOffInTwoMonths()
    ensures |Simulate(AggressiveParams(), [LoanA, LoanB])| == 2
    ensures Simulate(AggressiveParams(), [LoanA, LoanB])[0].debtEnd == 80.0
    ensures Simulate(AggressiveParams(), [LoanA, LoanB])[1].debtEnd == 0.0
  {
    ExampleRows();
    ExampleFirstMonth();
    ExampleSecondMonth();
  }

  /** An empty loan table simulates nothing: the single placeholder row. */
  lemma ExampleNoLoans(p: Params)
    ensures Simulate(p, []) == [PlaceholderRow(p)]
  {
    SimulatePlaceholderIff(p, []);
  }

  /** A new income of zero counts as no change, so the base income stays in
      force after the change month. */
  lemma ExampleZeroNewIncomeIgnored()
    ensures IncomeFor(Params(500.0, 300.0, 0.5, 24, StartDate("", YearMonth(2025, 1)), Some(3), Some(0.0)), 10)
              == 500.0
  {
  }

  /** A loan its own minimum clears sorts first at balance 0, so the capped
      extra payment on it is 0: with loans 100/20 and 10/10 the whole extra
      170 is lost that month, and the other loan stays at 80. */
  lemma ExampleExtraLostOnClearedLoan()
    ensures PayMinimums([LoanA, LoanC]) == [LoanA.(balance := 80.0), LoanC.(balance := 0.0)]
    ensures ExtraPaid(PayMinimums([LoanA, LoanC]), 170.0) == 0.0
    ensures ApplyExtra(PayMinimums([LoanA, LoanC]), 170.0)
              == [LoanC.(balance := 0.0), LoanA.(balance := 80.0)]
  {
    var a := LoanA.(balance := 80.0);
    var c := LoanC.(balance := 0.0);
    var paid := [a, c];
    assert [LoanA, LoanC][1..] == [LoanC];
    assert PayMinimums([LoanA, LoanC]) == paid;
    assert paid[1..] == [c];
    assert FirstMinIndex(paid) == 1;
    assert SortByBalance([c]) == Insert(c, []) == [c];
    assert Insert(a, [c]) == [c] + Insert(a, []) == [c, a];
    assert SortByBalance(paid) == [c, a];
  }
}
