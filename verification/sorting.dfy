/** The in-place `sort(key=balance)` the simulation performs before paying
    extra: a stable sort, so loans with equal balances keep their relative
    order. Modelled as an insertion sort over an immutable sequence. */
module BalanceSort {
  import opened Loans

  predicate Sorted(s: seq<Loan>) {
    forall i, j :: 0 <= i < j < |s| ==> s[i].balance <= s[j].balance
  }

  /** Places `x` before the first loan of `t` whose balance is not smaller,
      so `x` precedes the loans of equal balance already in `t`. */
  function Insert(x: Loan, t: seq<Loan>): (r: seq<Loan>)
    ensures |r| == |t| + 1
  {
    if |t| == 0 || x.balance <= t[0].balance then [x] + t
    else [t[0]] + Insert(x, t[1..])
  }

  lemma {:induction false} InsertPermutes(x: Loan, t: seq<Loan>)
    ensures multiset(Insert(x, t)) == multiset{x} + multiset(t)
    decreases |t|
  {
    if |t| > 0 && x.balance > t[0].balance {
      InsertPermutes(x, t[1..]);
      assert t == [t[0]] + t[1..];
    }
  }

  lemma {:induction false} InsertSorted(x: Loan, t: seq<Loan>)
    requires Sorted(t)
    ensures Sorted(Insert(x, t))
    decreases |t|
  {
    if |t| > 0 && x.balance > t[0].balance {
      var rest := Insert(x, t[1..]);
      InsertSorted(x, t[1..]);
      InsertPermutes(x, t[1..]);
      forall j | 0 <= j < |rest| ensures t[0].balance <= rest[j].balance {
        assert rest[j] in multiset(rest);
        if rest[j] != x {
          assert rest[j] in t[1..];
        }
      }
    }
  }

  /** Python's `list.sort(key=balance)`: a stable sort by balance. */
  function SortByBalance(s: seq<Loan>): (r: seq<Loan>)
    ensures |r| == |s|
  {
    if |s| == 0 then [] else Insert(s[0], SortByBalance(s[1..]))
  }

  /** Sorting only reorders the loans. */
  lemma {:induction false} SortPermutes(s: seq<Loan>)
    ensures multiset(SortByBalance(s)) == multiset(s)
    decreases |s|
  {
    if |s| > 0 {
      SortPermutes(s[1..]);
      InsertPermutes(s[0], SortByBalance(s[1..]));
      assert s == [s[0]] + s[1..];
    }
  }

  /** The sorted list has non-decreasing balances. */
  lemma {:induction false} SortIsSorted(s: seq<Loan>)
    ensures Sorted(SortByBalance(s))
    decreases |s|
  {
    if |s| > 0 {
      SortIsSorted(s[1..]);
      InsertSorted(s[0], SortByBalance(s[1..]));
    }
  }

  /** The loans of `s` whose balance is exactly `b`, in the order of `s`. */
  function Ties(s: seq<Loan>, b: real): seq<Loan>
  {
    if |s| == 0 then []
    else (if s[0].balance == b then [s[0]] else []) + Ties(s[1..], b)
  }

  /** Position of the smallest balance, the first one on ties. */
  function FirstMinIndex(s: seq<Loan>): (k: nat)
    requires |s| > 0
    ensures k < |s|
    ensures forall j :: 0 <= j < |s| ==> s[k].balance <= s[j].balance
    ensures forall j :: 0 <= j < k ==> s[k].balance < s[j].balance
  {
    if |s| == 1 then 0
    else
      var k := FirstMinIndex(s[1..]);
      if s[0].balance <= s[k + 1].balance then 0 else k + 1
  }

  /** `Ties` of a sequence with a known first loan. */
  lemma TiesCons(y: Loan, s: seq<Loan>, b: real)
    ensures Ties([y] + s, b) == (if y.balance == b then [y] else []) + Ties(s, b)
  {
    assert ([y] + s)[1..] == s;
  }

  lemma {:induction false} InsertKeepsTies(x: Loan, t: seq<Loan>, b: real)
    ensures Ties(Insert(x, t), b) == (if x.balance == b then [x] else []) + Ties(t, b)
    decreases |t|
  {
    if |t| == 0 || x.balance <= t[0].balance {
      TiesCons(x, t, b);
    } else {
      var rest := Insert(x, t[1..]);
      var own: seq<Loan> := if x.balance == b then [x] else [];
      var head: seq<Loan> := if t[0].balance == b then [t[0]] else [];
      assert own == [] || head == [];
      InsertKeepsTies(x, t[1..], b);
      TiesCons(t[0], rest, b);
      TiesCons(t[0], t[1..], b);
      assert t == [t[0]] + t[1..];
      calc {
        Ties(Insert(x, t), b);
        Ties([t[0]] + rest, b);
        head + Ties(rest, b);
        head + (own + Ties(t[1..], b));
        { assert head + own == own + head; }
        own + (head + Ties(t[1..], b));
        own + Ties(t, b);
      }
    }
  }

  /** Stability: for every balance, the loans carrying it appear in the same
      order before and after the sort. */
  lemma {:induction false} SortIsStable(s: seq<Loan>)
    ensures forall b :: Ties(SortByBalance(s), b) == Ties(s, b)
    decreases |s|
  {
    if |s| > 0 {
      SortIsStable(s[1..]);
      forall b ensures Ties(SortByBalance(s), b) == Ties(s, b) {
        InsertKeepsTies(s[0], SortByBalance(s[1..]), b);
      }
    }
  }

  /** Every loan `Ties` keeps comes from `s` and carries the balance `b`. */
  lemma {:induction false} TiesMember(s: seq<Loan>, b: real, l: Loan)
    requires l in Ties(s, b)
    ensures l in s && l.balance == b
    decreases |s|
  {
    if l != s[0] || s[0].balance != b {
      TiesMember(s[1..], b, l);
    }
  }

  lemma SortedHeadIsLeast(s: seq<Loan>, l: Loan)
    requires Sorted(s) && l in s
    ensures s[0].balance <= l.balance
  {
  }

  /** The first loan of a non-empty sequence always has ties of its own. */
  lemma HeadHasTies(s: seq<Loan>)
    ensures |s| > 0 ==> s[0] in Ties(s, s[0].balance)
  {
  }

  /** Two sorted sequences with the same ties start with the same loan. */
  lemma SameTiesSameHead(a: seq<Loan>, c: seq<Loan>)
    requires Sorted(a) && Sorted(c) && |a| > 0 && |c| > 0
    requires forall v :: Ties(a, v) == Ties(c, v)
    ensures a[0] == c[0]
  {
    HeadHasTies(a);
    HeadHasTies(c);
    TiesMember(c, a[0].balance, a[0]);
    SortedHeadIsLeast(c, a[0]);
    TiesMember(a, c[0].balance, c[0]);
    SortedHeadIsLeast(a, c[0]);
    var v := a[0].balance;
    assert Ties(a, v)[0] == a[0];
    assert Ties(c, v)[0] == c[0];
  }

  /** A sorted sequence that keeps every balance's ties in order is unique:
      sortedness and stability together pin down the result, so
      `SortByBalance` is the one stable sort by balance. */
  lemma {:induction false} StableSortIsUnique(a: seq<Loan>, c: seq<Loan>)
    requires Sorted(a) && Sorted(c)
    requires forall v :: Ties(a, v) == Ties(c, v)
    ensures a == c
    decreases |a|
  {
    HeadHasTies(a);
    HeadHasTies(c);
    if |a| > 0 && |c| > 0 {
      SameTiesSameHead(a, c);
      var v := a[0].balance;
      forall u ensures Ties(a[1..], u) == Ties(c[1..], u) {
        if u == v {
          assert Ties(a[1..], u) == Ties(a, u)[1..];
          assert Ties(c[1..], u) == Ties(c, u)[1..];
        } else {
          assert Ties(a[1..], u) == Ties(a, u);
          assert Ties(c[1..], u) == Ties(c, u);
        }
      }
      StableSortIsUnique(a[1..], c[1..]);
      assert a == [a[0]] + a[1..];
      assert c == [c[0]] + c[1..];
    }
  }

  /** The result of `SortByBalance` is the only sequence that is sorted by
      balance and keeps the order of equal balances. */
  lemma SortIsTheStableSort(s: seq<Loan>, r: seq<Loan>)
    requires Sorted(r)
    requires forall v :: Ties(r, v) == Ties(s, v)
    ensures r == SortByBalance(s)
  {
    SortIsStable(s);
    SortIsSorted(s);
    StableSortIsUnique(r, SortByBalance(s));
  }

  /** The loan the sort moves to the front is the first loan of smallest
      balance in the current order. */
  lemma {:induction false} SortHeadIsFirstMinimum(s: seq<Loan>)
    requires |s| > 0
    ensures SortByBalance(s)[0] == s[FirstMinIndex(s)]
    decreases |s|
  {
    if |s| > 1 {
      SortHeadIsFirstMinimum(s[1..]);
      var k := FirstMinIndex(s[1..]);
      assert s[1..][k] == s[k + 1];
    }
  }

  /** Behind the loan moved to the front come all the other loans. */
  lemma SortTail(s: seq<Loan>)
    requires |s| > 0
    ensures multiset(SortByBalance(s)[1..]) == multiset(s) - multiset{s[FirstMinIndex(s)]}
  {
    var sorted := SortByBalance(s);
    SortHeadIsFirstMinimum(s);
    SortPermutes(s);
    assert sorted == [sorted[0]] + sorted[1..];
    assert multiset(sorted) == multiset{sorted[0]} + multiset(sorted[1..]);
  }

  lemma {:induction false} InsertTotal(x: Loan, t: seq<Loan>)
    ensures TotalBalance(Insert(x, t)) == x.balance + TotalBalance(t)
    decreases |t|
  {
    if |t| == 0 || x.balance <= t[0].balance {
      assert ([x] + t)[1..] == t;
    } else {
      var rest := Insert(x, t[1..]);
      assert ([t[0]] + rest)[1..] == rest;
      InsertTotal(x, t[1..]);
    }
  }

  /** Reordering the loans does not change the total owed. */
  lemma {:induction false} SortKeepsTotal(s: seq<Loan>)
    ensures TotalBalance(SortByBalance(s)) == TotalBalance(s)
    decreases |s|
  {
    if |s| > 0 {
      SortKeepsTotal(s[1..]);
      InsertTotal(s[0], SortByBalance(s[1..]));
    }
  }
}
