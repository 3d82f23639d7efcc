/** The three payment steps of one simulated month: the minimum payments,
    the split of what is left over, and the extra payment to the smallest
    debt. */
module Payments {
  import opened Loans
  import opened BalanceSort

  /** Pays every loan its minimum, capped at its balance. Order and every
      field other than the balance are kept. */
  function PayMinimums(loans: seq<Loan>): (r: seq<Loan>)
    ensures |r| == |loans|
  {
    if |loans| == 0 then []
    else [loans[0].(balance := loans[0].balance - MinimumPaid(loans[0]))] + PayMinimums(loans[1..])
  }

  /** Loan by loan, the minimum step takes the minimum off the balance, down
      to zero at most, and touches nothing else. */
  lemma {:induction false} PayMinimumsPointwise(loans: seq<Loan>)
    ensures forall i :: 0 <= i < |loans| ==>
              PayMinimums(loans)[i].balance == Max(0.0, loans[i].balance - loans[i].minPayment)
    ensures forall i :: 0 <= i < |loans| ==>
              PayMinimums(loans)[i].(balance := loans[i].balance) == loans[i]
    decreases |loans|
  {
    if |loans| > 0 {
      PayMinimumsPointwise(loans[1..]);
      var r := PayMinimums(loans);
      assert forall i :: 1 <= i < |loans| ==> r[i] == PayMinimums(loans[1..])[i - 1];
    }
  }

  /** The minimum step keeps both invariants: balances end at zero or above,
      and every minimum is carried over unchanged. */
  lemma PayMinimumsKeepsInvariants(loans: seq<Loan>)
    ensures BalancesNonNegative(PayMinimums(loans))
    ensures forall i :: 0 <= i < |loans| ==> PayMinimums(loans)[i].minPayment == loans[i].minPayment
    ensures MinsNonNegative(loans) ==> MinsNonNegative(PayMinimums(loans))
  {
    PayMinimumsPointwise(loans);
    var r := PayMinimums(loans);
    forall i | 0 <= i < |r| ensures r[i].minPayment == loans[i].minPayment {
      assert r[i].(balance := loans[i].balance).minPayment == r[i].minPayment;
    }
  }

  /** The minimum step lowers the total owed by exactly the minimums
      actually paid, which is never more than the nominal minimums. */
  lemma {:induction false} PayMinimumsTotal(loans: seq<Loan>)
    ensures TotalBalance(PayMinimums(loans)) == TotalBalance(loans) - TotalMinimumPaid(loans)
    ensures MinsNonNegative(loans) && BalancesNonNegative(loans) ==>
              0.0 <= TotalMinimumPaid(loans) <= TotalMinimum(loans)
    decreases |loans|
  {
    if |loans| > 0 {
      PayMinimumsTotal(loans[1..]);
      assert PayMinimums(loans)[1..] == PayMinimums(loans[1..]);
      if MinsNonNegative(loans) && BalancesNonNegative(loans) {
        assert MinsNonNegative(loans[1..]) && BalancesNonNegative(loans[1..]);
      }
    }
  }

  /** Cash left after expenses and the nominal minimums, never negative. */
  function Leftover(income: real, expenses: real, mandatory: real): (r: real)
    ensures r >= 0.0 && r >= income - expenses - mandatory
    ensures r == 0.0 || r == income - expenses - mandatory
  {
    Max(0.0, income - expenses - mandatory)
  }

  /** How the leftover is divided: `toSavings` is the savings share of it,
      `toDebt` the rest. */
  datatype Split = Split(toDebt: real, toSavings: real)

  function SplitLeftover(leftover: real, savingsShare: real): (r: Split)
    ensures r.toDebt + r.toSavings == leftover
    ensures r.toSavings == savingsShare * (r.toDebt + r.toSavings)
    ensures leftover >= 0.0 && savingsShare >= 0.0 ==> r.toSavings >= 0.0
    ensures leftover >= 0.0 && savingsShare <= 1.0 ==> r.toDebt >= 0.0
    ensures savingsShare == 0.0 ==> r.toSavings == 0.0
    ensures savingsShare == 1.0 ==> r.toDebt == 0.0
    ensures savingsShare == 0.5 ==> r.toDebt == r.toSavings == leftover / 2.0
  {
    assert leftover * (1.0 - savingsShare) + leftover * savingsShare == leftover;
    assert leftover * savingsShare == savingsShare * leftover;
    assert leftover >= 0.0 && savingsShare >= 0.0 ==> leftover * savingsShare >= 0.0;
    assert leftover >= 0.0 && savingsShare <= 1.0 ==> leftover * (1.0 - savingsShare) >= 0.0;
    assert savingsShare == 0.5 ==> leftover * (1.0 - savingsShare) == leftover * 0.5 == leftover / 2.0;
    Split(leftover * (1.0 - savingsShare), leftover * savingsShare)
  }

  /** Applies the extra debt payment. When there is something to pay, the
      loans are sorted by balance (the new order is kept) and the first one
      receives the payment, capped at its balance; any excess is not passed
      on to the next loan. */
  function ApplyExtra(loans: seq<Loan>, extra: real): (r: seq<Loan>)
    ensures |r| == |loans|
    ensures extra <= 0.0 || |loans| == 0 ==> r == loans
  {
    if extra > 0.0 && |loans| > 0 then
      [PayExtra(SortByBalance(loans)[0], extra)] + SortByBalance(loans)[1..]
    else
      loans
  }

  /** One loan paid `extra`, capped at its balance. */
  function PayExtra(l: Loan, extra: real): Loan
  {
    l.(balance := l.balance - Min(extra, l.balance))
  }

  /** The extra payment keeps non-negative balances non-negative and
      non-negative minimums non-negative, so both invariants survive it. Which
      loan changes, and by how much, is `ExtraGoesToSmallest`. */
  lemma ExtraKeepsInvariants(loans: seq<Loan>, extra: real)
    ensures BalancesNonNegative(loans) ==> BalancesNonNegative(ApplyExtra(loans, extra))
    ensures MinsNonNegative(loans) ==> MinsNonNegative(ApplyExtra(loans, extra))
  {
    if extra > 0.0 && |loans| > 0 {
      var sorted := SortByBalance(loans);
      var r := ApplyExtra(loans, extra);
      ExtraShape(loans, extra);
      SortPermutes(loans);
      forall i | 0 <= i < |r|
        ensures exists j :: 0 <= j < |loans| && r[i].minPayment == loans[j].minPayment
        ensures i > 0 ==> exists j :: 0 <= j < |loans| && r[i].balance == loans[j].balance
        ensures r[i].balance >= 0.0 || (i > 0 && r[i] in loans)
      {
        assert sorted[i] in multiset(loans);
        assert sorted[i] in loans;
        if i > 0 {
          assert r[i] == sorted[i];
        }
      }
    }
  }

  /** What the extra payment takes off the total owed. */
  function ExtraPaid(loans: seq<Loan>, extra: real): real
  {
    if extra > 0.0 && |loans| > 0 then Min(extra, loans[FirstMinIndex(loans)].balance) else 0.0
  }

  /** The shape of a paying `ApplyExtra`: the sorted loans with the head's
      balance reduced by the capped payment. */
  lemma ExtraShape(loans: seq<Loan>, extra: real)
    requires extra > 0.0 && |loans| > 0
    ensures ApplyExtra(loans, extra)[0] == PayExtra(SortByBalance(loans)[0], extra)
    ensures ApplyExtra(loans, extra)[1..] == SortByBalance(loans)[1..]
  {
    var r := ApplyExtra(loans, extra);
    assert r == [PayExtra(SortByBalance(loans)[0], extra)] + SortByBalance(loans)[1..];
  }

  lemma ExtraHead(loans: seq<Loan>, extra: real)
    requires extra > 0.0 && |loans| > 0
    ensures ApplyExtra(loans, extra)[0]
              == loans[FirstMinIndex(loans)].(balance := Max(0.0, loans[FirstMinIndex(loans)].balance - extra))
  {
    var k := FirstMinIndex(loans);
    ExtraShape(loans, extra);
    SortHeadIsFirstMinimum(loans);
    assert ApplyExtra(loans, extra)[0] == PayExtra(loans[k], extra);
    PayExtraFloorsAtZero(loans[k], extra);
  }

  /** Paying `extra` on one loan leaves what was owed less the payment, or
      nothing when the payment is larger. */
  lemma PayExtraFloorsAtZero(l: Loan, extra: real)
    ensures PayExtra(l, extra) == l.(balance := Max(0.0, l.balance - extra))
  {
  }

  lemma ExtraRest(loans: seq<Loan>, extra: real)
    requires extra > 0.0 && |loans| > 0
    ensures ApplyExtra(loans, extra)[1..] == SortByBalance(loans)[1..]
    ensures multiset(SortByBalance(loans)[1..]) == multiset(loans) - multiset{loans[FirstMinIndex(loans)]}
  {
    ExtraShape(loans, extra);
    SortTail(loans);
  }

  lemma ExtraTotal(loans: seq<Loan>, extra: real)
    requires extra > 0.0 && |loans| > 0
    ensures TotalBalance(ApplyExtra(loans, extra)) == TotalBalance(loans) - ExtraPaid(loans, extra)
  {
    var sorted := SortByBalance(loans);
    var head := PayExtra(sorted[0], extra);
    ExtraShape(loans, extra);
    SortHeadIsFirstMinimum(loans);
    SortKeepsTotal(loans);
    assert TotalBalance(sorted) == sorted[0].balance + TotalBalance(sorted[1..]);
    assert TotalBalance([head] + sorted[1..]) == head.balance + TotalBalance(sorted[1..]);
  }

  /** The extra payment goes to the first loan of smallest balance and to no
      other: that loan moves to the front with its balance reduced by the
      payment (down to zero at most), the others follow in sorted order with
      their records unchanged, and the total falls by the capped payment. */
  lemma ExtraGoesToSmallest(loans: seq<Loan>, extra: real)
    requires extra > 0.0 && |loans| > 0
    ensures ApplyExtra(loans, extra)[0]
              == loans[FirstMinIndex(loans)].(balance := Max(0.0, loans[FirstMinIndex(loans)].balance - extra))
    ensures ApplyExtra(loans, extra)[1..] == SortByBalance(loans)[1..]
    ensures multiset(ApplyExtra(loans, extra)[1..]) == multiset(loans) - multiset{loans[FirstMinIndex(loans)]}
    ensures TotalBalance(ApplyExtra(loans, extra)) == TotalBalance(loans) - ExtraPaid(loans, extra)
  {
    ExtraHead(loans, extra);
    ExtraRest(loans, extra);
    ExtraTotal(loans, extra);
  }

  /** The whole month's payments lower the total by the minimums actually
      paid plus the capped extra payment. */
  lemma PaymentsTotal(active: seq<Loan>, extra: real)
    ensures TotalBalance(ApplyExtra(PayMinimums(active), extra))
              == TotalBalance(active) - TotalMinimumPaid(active) - ExtraPaid(PayMinimums(active), extra)
  {
    PayMinimumsTotal(active);
    if extra > 0.0 && |active| > 0 {
      ExtraGoesToSmallest(PayMinimums(active), extra);
    }
  }

  /** With non-negative minimums and balances the payments never raise the
      total owed, and what remains is never negative. */
  lemma PaymentsNeverRaiseDebt(active: seq<Loan>, extra: real)
    requires MinsNonNegative(active) && BalancesNonNegative(active)
    ensures 0.0 <= TotalBalance(ApplyExtra(PayMinimums(active), extra)) <= TotalBalance(active)
  {
    var paid := PayMinimums(active);
    var after := ApplyExtra(paid, extra);
    PaymentsTotal(active, extra);
    PayMinimumsTotal(active);
    PayMinimumsKeepsInvariants(active);
    assert ExtraPaid(paid, extra) >= 0.0 by {
      if extra > 0.0 && |paid| > 0 {
        assert paid[FirstMinIndex(paid)].balance >= 0.0;
      }
    }
    ExtraKeepsInvariants(paid, extra);
    TotalBalanceNonNegative(after);
  }
}
