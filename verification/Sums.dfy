/** Finite sums over node numbers, and exchanging their order. */
module Sums {

  function Sum(f: nat -> real, n: nat): real {
    if n == 0 then 0.0 else Sum(f, n - 1) + f(n - 1)
  }

  lemma {:induction false} SumSame(f: nat -> real, g: nat -> real, n: nat)
    requires forall i: nat :: i < n ==> f(i) == g(i)
    ensures Sum(f, n) == Sum(g, n)
  {
    if n > 0 {
      SumSame(f, g, n - 1);
    }
  }

  lemma {:induction false} SumZero(f: nat -> real, n: nat)
    requires forall i: nat :: i < n ==> f(i) == 0.0
    ensures Sum(f, n) == 0.0
  {
    if n > 0 {
      SumZero(f, n - 1);
    }
  }

  /** Two summands that differ at one place only. */
  lemma {:induction false} SumPoint(f: nat -> real, g: nat -> real, n: nat, k: nat)
    requires k < n && forall i: nat :: i < n && i != k ==> f(i) == g(i)
    ensures Sum(f, n) == Sum(g, n) + f(k) - g(k)
  {
    if k == n - 1 {
      SumSame(f, g, n - 1);
    } else {
      SumPoint(f, g, n - 1, k);
    }
  }

  lemma {:induction false} SumPlus(f: nat -> real, g: nat -> real, h: nat -> real, n: nat)
    requires forall i: nat :: i < n ==> h(i) == f(i) + g(i)
    ensures Sum(h, n) == Sum(f, n) + Sum(g, n)
  {
    if n > 0 {
      SumPlus(f, g, h, n - 1);
    }
  }

  lemma {:induction false} SumScaled(f: nat -> real, g: nat -> real, c: real, n: nat)
    requires forall i: nat :: i < n ==> g(i) == f(i) * c
    ensures Sum(g, n) == Sum(f, n) * c
  {
    if n > 0 {
      SumScaled(f, g, c, n - 1);
      assert (Sum(f, n - 1) + f(n - 1)) * c == Sum(f, n - 1) * c + f(n - 1) * c;
    }
  }

  function Row(f: (nat, nat) -> real, i: nat): nat -> real {
    (j: nat) => f(i, j)
  }

  function Column(f: (nat, nat) -> real, j: nat): nat -> real {
    (i: nat) => f(i, j)
  }

  function RowSums(f: (nat, nat) -> real, m: nat): nat -> real {
    (i: nat) => Sum(Row(f, i), m)
  }

  function ColumnSums(f: (nat, nat) -> real, n: nat): nat -> real {
    (j: nat) => Sum(Column(f, j), n)
  }

  /** Summing by rows or by columns gives the same total. */
  lemma {:induction false} SumSwap(f: (nat, nat) -> real, n: nat, m: nat)
    ensures Sum(RowSums(f, m), n) == Sum(ColumnSums(f, n), m)
  {
    if n == 0 {
      SumZero(ColumnSums(f, 0), m);
    } else {
      SumSwap(f, n - 1, m);
      SumPlus(ColumnSums(f, n - 1), Row(f, n - 1), ColumnSums(f, n), m);
    }
  }

  function Indicator(p: nat -> bool): nat -> real {
    (i: nat) => if p(i) then 1.0 else 0.0
  }

  ghost function Below(p: nat -> bool, n: nat): set<nat> {
    set i: nat | i < n && p(i)
  }

  /** Counting by summing ones. */
  lemma {:induction false} CountIsSum(p: nat -> bool, n: nat)
    ensures |Below(p, n)| as real == Sum(Indicator(p), n)
  {
    if n == 0 {
      assert Below(p, 0) == {};
    } else {
      CountIsSum(p, n - 1);
      assert Below(p, n) == Below(p, n - 1) + if p(n - 1) then {n - 1} else {};
    }
  }
}
