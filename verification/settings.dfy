/** The inputs the settings panel hands to the simulation: the strategy
    menu, the expense total and the sample loan table. The widgets
    themselves are not modelled. */
module Settings {
  import opened Loans

  /** The entries of the strategy menu. */
  datatype Strategy = SafetyFirst | Aggressive | Balanced | Custom

  /** Share of each month's leftover that goes to savings; the rest goes to
      extra debt payment. `custom` is the value of the custom slider, which
      only the `Custom` entry reads. */
  function SavingsShare(s: Strategy, custom: real): (r: real)
    ensures 0.0 <= custom <= 1.0 ==> 0.0 <= r <= 1.0
    ensures s != Custom ==> r == 0.0 || r == 0.5 || r == 1.0
    ensures s == SafetyFirst ==> r == 1.0
    ensures s == Aggressive ==> r == 0.0
    ensures s == Balanced ==> r == 0.5
    ensures s == Custom ==> r == custom
  {
    match s
    case SafetyFirst => 1.0
    case Aggressive => 0.0
    case Balanced => 0.5
    case Custom => custom
  }

  /** Monthly expenses: rent, food and bills, and other expenses. Each input
      is at least zero, so the total is at least each of them. */
  function TotalExpenses(rent: real, foodBills: real, other: real): (r: real)
    ensures rent >= 0.0 && foodBills >= 0.0 && other >= 0.0 ==>
              r >= rent && r >= foodBills && r >= other
    ensures r == rent + foodBills + other
  {
    rent + foodBills + other
  }

  /** The sample loan table shown when no table has been entered yet. */
  function DefaultLoans(): (loans: seq<Loan>)
    ensures |loans| == 6
    ensures MinsNonNegative(loans)
    ensures forall i :: 0 <= i < |loans| ==> IsActive(loans[i]) && loans[i].apr == 0.0
  {
    [ Loan("Card 1 (Ethn Bank)", 2108.28, 0.0, 45.0),
      Loan("Card 2 (Alph Bank)", 1531.16, 0.0, 24.0),
      Loan("Car Loan (Alpha Bank)", 3191.32, 0.0, 69.0),
      Loan("Loan_no2 (Alpha Bank)", 206.00, 0.0, 27.0),
      Loan("Loan_no3 (Alpha Bank)", 555.97, 0.0, 30.0),
      Loan("Loan_no4 (Alpha TFI)", 642.47, 0.0, 15.0) ]
  }

  /** The sample table owes 8235.20 in total with 210 of monthly minimums,
      and every loan in it survives the paid-off filter. */
  lemma DefaultLoansTotals()
    ensures Active(DefaultLoans()) == DefaultLoans()
    ensures TotalBalance(DefaultLoans()) == 8235.20
    ensures TotalMinimum(DefaultLoans()) == 210.0
  {
    var d := DefaultLoans();
    ActiveKeepsAllOwed(d);
    assert d == [d[0]] + d[1..];
    assert d[1..] == [d[1]] + d[2..];
    assert d[2..] == [d[2]] + d[3..];
    assert d[3..] == [d[3]] + d[4..];
    assert d[4..] == [d[4]] + d[5..];
    assert d[5..] == [d[5]] + [];
    assert TotalBalance(d[4..]) == 555.97 + 642.47;
    assert TotalBalance(d[2..]) == 3191.32 + 206.00 + 555.97 + 642.47;
    assert TotalMinimum(d[4..]) == 45.0;
    assert TotalMinimum(d[2..]) == 141.0;
  }
}
