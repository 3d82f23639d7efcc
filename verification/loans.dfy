/** Loan records and the totals the simulation takes over them.

    Money is `real`: the simulation accumulates at full precision and only the
    reported figures are rounded, which this model leaves out. */
module Loans {

  /** One row of the loan table. The APR is carried along but never enters
      the arithmetic. */
  datatype Loan = Loan(name: string, balance: real, apr: real, minPayment: real)

  /** Balances at or below one cent count as paid off. */
  const Epsilon: real := 0.01

  function Min(a: real, b: real): real { if a <= b then a else b }

  function Max(a: real, b: real): real { if a >= b then a else b }

  /** A loan still owed: its balance is above the paid-off threshold. */
  predicate IsActive(l: Loan) { l.balance > Epsilon }

  predicate MinsNonNegative(loans: seq<Loan>) {
    forall i :: 0 <= i < |loans| ==> loans[i].minPayment >= 0.0
  }

  predicate BalancesNonNegative(loans: seq<Loan>) {
    forall i :: 0 <= i < |loans| ==> loans[i].balance >= 0.0
  }

  /** The loans that survive the start-of-month filter, in their current order. */
  function Active(loans: seq<Loan>): (r: seq<Loan>)
    ensures |r| <= |loans|
  {
    if |loans| == 0 then []
    else if IsActive(loans[0]) then [loans[0]] + Active(loans[1..])
    else Active(loans[1..])
  }

  /** Which loans pass the filter: the survivors are exactly the loans above
      the threshold, and none is repeated beyond its occurrences. That every
      occurrence is kept, in order, is `ActiveAppend`. */
  lemma {:induction false} ActiveSpec(loans: seq<Loan>)
    ensures forall l :: l in Active(loans) <==> l in loans && IsActive(l)
    ensures multiset(Active(loans)) <= multiset(loans)
    ensures forall i :: 0 <= i < |Active(loans)| ==> IsActive(Active(loans)[i])
    decreases |loans|
  {
    if |loans| > 0 {
      ActiveSpec(loans[1..]);
      assert loans == [loans[0]] + loans[1..];
    }
  }

  function TotalBalance(loans: seq<Loan>): real
  {
    if |loans| == 0 then 0.0 else loans[0].balance + TotalBalance(loans[1..])
  }

  /** Sum of the nominal minimum payments. */
  function TotalMinimum(loans: seq<Loan>): real
  {
    if |loans| == 0 then 0.0 else loans[0].minPayment + TotalMinimum(loans[1..])
  }

  /** The minimum payment actually made on one loan: the nominal minimum,
      capped at what is still owed. */
  function MinimumPaid(l: Loan): real { Min(l.minPayment, l.balance) }

  /** Sum of the minimum payments actually made. */
  function TotalMinimumPaid(loans: seq<Loan>): real
  {
    if |loans| == 0 then 0.0 else MinimumPaid(loans[0]) + TotalMinimumPaid(loans[1..])
  }

  lemma {:induction false} TotalBalanceAppend(a: seq<Loan>, b: seq<Loan>)
    ensures TotalBalance(a + b) == TotalBalance(a) + TotalBalance(b)
    decreases |a|
  {
    if |a| == 0 {
      assert a + b == b;
    } else {
      assert (a + b)[1..] == a[1..] + b;
      TotalBalanceAppend(a[1..], b);
    }
  }

  lemma {:induction false} TotalBalanceNonNegative(loans: seq<Loan>)
    requires BalancesNonNegative(loans)
    ensures TotalBalance(loans) >= 0.0
    decreases |loans|
  {
    if |loans| > 0 {
      TotalBalanceNonNegative(loans[1..]);
    }
  }

  /** A list in which every loan is above the threshold has a positive total
      exactly when it is non-empty. */
  lemma {:induction false} TotalOfActiveLoans(loans: seq<Loan>)
    requires forall i :: 0 <= i < |loans| ==> IsActive(loans[i])
    ensures |loans| == 0 ==> TotalBalance(loans) == 0.0
    ensures |loans| > 0 ==> TotalBalance(loans) > Epsilon
    decreases |loans|
  {
    if |loans| > 0 {
      TotalOfActiveLoans(loans[1..]);
    }
  }

  /** After the filter the non-positive-total test can only hold for an
      empty list: the total is positive exactly when some loan is still owed. */
  lemma ActiveTotalPositiveIffSomeOwed(loans: seq<Loan>)
    ensures TotalBalance(Active(loans)) > 0.0 <==> exists l :: l in loans && IsActive(l)
    ensures TotalBalance(Active(loans)) > 0.0 <==> |Active(loans)| > 0
  {
    var a := Active(loans);
    ActiveSpec(loans);
    TotalOfActiveLoans(a);
    if |a| > 0 {
      assert a[0] in loans && IsActive(a[0]);
    }
  }

  /** The filter decides each loan on its own and keeps the survivors where
      they were: filtering a joined list is joining the filtered parts, and a
      single loan is kept exactly when it is above the threshold. Together
      these fix the result as the order-keeping list of every survivor. */
  lemma {:induction false} ActiveAppend(a: seq<Loan>, b: seq<Loan>)
    ensures Active(a + b) == Active(a) + Active(b)
    ensures |a| == 1 ==> Active(a) == (if IsActive(a[0]) then a else [])
    decreases |a|
  {
    ActiveAppendStep(a, b);
    if |a| == 1 {
      ActiveCons(a[0], []);
      assert a == [a[0]] + [];
    }
  }

  lemma {:induction false} ActiveAppendStep(a: seq<Loan>, b: seq<Loan>)
    ensures Active(a + b) == Active(a) + Active(b)
    decreases |a|
  {
    if |a| == 0 {
      assert a + b == b;
    } else {
      ActiveAppendStep(a[1..], b);
      ActiveAppendCons(a[0], a[1..], b);
      assert a == [a[0]] + a[1..];
    }
  }

  /** The induction step of `ActiveAppendStep`: putting one loan in front. */
  lemma ActiveAppendCons(x: Loan, t: seq<Loan>, b: seq<Loan>)
    requires Active(t + b) == Active(t) + Active(b)
    ensures Active([x] + t + b) == Active([x] + t) + Active(b)
  {
    var own: seq<Loan> := if IsActive(x) then [x] else [];
    assert [x] + t + b == [x] + (t + b);
    ActiveCons(x, t + b);
    ActiveCons(x, t);
    assert own + (Active(t) + Active(b)) == (own + Active(t)) + Active(b);
  }

  /** `Active` of a list with a known first loan. */
  lemma ActiveCons(x: Loan, s: seq<Loan>)
    ensures Active([x] + s) == (if IsActive(x) then [x] else []) + Active(s)
  {
    assert ([x] + s)[1..] == s;
  }

  /** The filter keeps exactly the loans above the threshold, so it removes
      nothing the second time. */
  lemma {:induction false} ActiveIdempotent(loans: seq<Loan>)
    ensures Active(Active(loans)) == Active(loans)
    decreases |loans|
  {
    if |loans| > 0 {
      ActiveIdempotent(loans[1..]);
      if IsActive(loans[0]) {
        assert ([loans[0]] + Active(loans[1..]))[1..] == Active(loans[1..]);
      }
    }
  }

  /** When every loan is still owed the filter removes nothing. */
  lemma {:induction false} ActiveKeepsAllOwed(loans: seq<Loan>)
    requires forall i :: 0 <= i < |loans| ==> IsActive(loans[i])
    ensures Active(loans) == loans
    decreases |loans|
  {
    if |loans| > 0 {
      ActiveKeepsAllOwed(loans[1..]);
      assert loans == [loans[0]] + loans[1..];
    }
  }

  /** The filter only removes loans, so it keeps the minimums non-negative. */
  lemma ActiveKeepsMins(loans: seq<Loan>)
    requires MinsNonNegative(loans)
    ensures MinsNonNegative(Active(loans))
  {
    var a := Active(loans);
    ActiveSpec(loans);
    forall i | 0 <= i < |a| ensures a[i].minPayment >= 0.0 {
      assert a[i] in loans;
    }
  }
}
