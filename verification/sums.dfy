/** Finite sums over a rectangular block of integer cells.

    The lattice code adds up per-cell quantities over the whole grid. These
    sums are stated once, generically, over a function of the two cell
    coordinates; the lemmas below are the facts the energy and magnetisation
    bookkeeping rests on: extensionality, additivity, the effect of
    changing the summand at one or two cells, and invariance under a cyclic
    shift of the rows or of the columns.
 */
module Sums {

  /** f(i, 0) + f(i, 1) + ... + f(i, m - 1): one row of the block. */
  function RowSum(f: (int, int) -> int, i: int, m: nat): int
  {
    if m == 0 then 0 else RowSum(f, i, m - 1) + f(i, m - 1)
  }

  /** Sum of f over rows 0 .. n - 1 and columns 0 .. m - 1. */
  function GridSum(f: (int, int) -> int, n: nat, m: nat): int
  {
    if n == 0 then 0 else GridSum(f, n - 1, m) + RowSum(f, n - 1, m)
  }

  /** Two summands that agree on a row have the same row sum. */
  lemma {:induction false} RowSumExt(f: (int, int) -> int, h: (int, int) -> int, i: int, m: nat)
    requires forall j :: 0 <= j < m ==> f(i, j) == h(i, j)
    ensures RowSum(f, i, m) == RowSum(h, i, m)
  {
    if m > 0 {
      RowSumExt(f, h, i, m - 1);
    }
  }

  /** Two summands that agree on the block have the same sum. */
  lemma {:induction false} GridSumExt(f: (int, int) -> int, h: (int, int) -> int, n: nat, m: nat)
    requires forall i, j :: 0 <= i < n && 0 <= j < m ==> f(i, j) == h(i, j)
    ensures GridSum(f, n, m) == GridSum(h, n, m)
  {
    if n > 0 {
      GridSumExt(f, h, n - 1, m);
      RowSumExt(f, h, n - 1, m);
    }
  }

  /** Row sums are additive in the summand. */
  lemma {:induction false} RowSumAdd(f: (int, int) -> int, g: (int, int) -> int, h: (int, int) -> int, i: int, m: nat)
    requires forall j :: 0 <= j < m ==> h(i, j) == f(i, j) + g(i, j)
    ensures RowSum(h, i, m) == RowSum(f, i, m) + RowSum(g, i, m)
  {
    if m > 0 {
      RowSumAdd(f, g, h, i, m - 1);
    }
  }

  /** Block sums are additive in the summand. */
  lemma {:induction false} GridSumAdd(f: (int, int) -> int, g: (int, int) -> int, h: (int, int) -> int, n: nat, m: nat)
    requires forall i, j :: 0 <= i < n && 0 <= j < m ==> h(i, j) == f(i, j) + g(i, j)
    ensures GridSum(h, n, m) == GridSum(f, n, m) + GridSum(g, n, m)
  {
    if n > 0 {
      GridSumAdd(f, g, h, n - 1, m);
      RowSumAdd(f, g, h, n - 1, m);
    }
  }

  /** Changing a row's summand at column q only moves the row sum by the change at q. */
  lemma {:induction false} RowSumPoint(f: (int, int) -> int, h: (int, int) -> int, i: int, m: nat, q: int)
    requires 0 <= q < m
    requires forall j :: 0 <= j < m && j != q ==> f(i, j) == h(i, j)
    ensures RowSum(h, i, m) == RowSum(f, i, m) + (h(i, q) - f(i, q))
  {
    if q == m - 1 {
      RowSumExt(f, h, i, m - 1);
    } else {
      RowSumPoint(f, h, i, m - 1, q);
    }
  }

  /** Changing the summand at one cell (p, q) only moves the block sum by the change there. */
  lemma {:induction false} GridSumPoint(f: (int, int) -> int, h: (int, int) -> int, n: nat, m: nat, p: int, q: int)
    requires 0 <= p < n && 0 <= q < m
    requires forall i, j :: 0 <= i < n && 0 <= j < m && (i != p || j != q) ==> f(i, j) == h(i, j)
    ensures GridSum(h, n, m) == GridSum(f, n, m) + (h(p, q) - f(p, q))
  {
    if p == n - 1 {
      GridSumExt(f, h, n - 1, m);
      RowSumPoint(f, h, n - 1, m, q);
    } else {
      GridSumPoint(f, h, n - 1, m, p, q);
      RowSumExt(f, h, n - 1, m);
    }
  }

  /** Changing the summand at two distinct cells moves the block sum by the two changes. */
  lemma GridSumTwoPoints(f: (int, int) -> int, h: (int, int) -> int, n: nat, m: nat,
                         p1: int, q1: int, p2: int, q2: int)
    requires 0 <= p1 < n && 0 <= q1 < m
    requires 0 <= p2 < n && 0 <= q2 < m
    requires p1 != p2 || q1 != q2
    requires forall i, j :: 0 <= i < n && 0 <= j < m && (i != p1 || j != q1) && (i != p2 || j != q2) ==> f(i, j) == h(i, j)
    ensures GridSum(h, n, m) == GridSum(f, n, m) + (h(p1, q1) - f(p1, q1)) + (h(p2, q2) - f(p2, q2))
  {
    var mid := (i, j) => if i == p1 && j == q1 then h(i, j) else f(i, j);
    GridSumPoint(f, mid, n, m, p1, q1);
    GridSumPoint(mid, h, n, m, p2, q2);
  }

  /** A constant summand v sums to v * n * m. */
  lemma {:induction false} GridSumConst(f: (int, int) -> int, n: nat, m: nat, v: int)
    requires forall i, j :: 0 <= i < n && 0 <= j < m ==> f(i, j) == v
    ensures GridSum(f, n, m) == v * n * m
  {
    if n > 0 {
      GridSumConst(f, n - 1, m, v);
      RowSumConst(f, n - 1, m, v);
      PeelRow(v, n, m);
    }
  }

  lemma {:induction false} RowSumConst(f: (int, int) -> int, i: int, m: nat, v: int)
    requires forall j :: 0 <= j < m ==> f(i, j) == v
    ensures RowSum(f, i, m) == v * m
  {
    if m > 0 {
      RowSumConst(f, i, m - 1, v);
    }
  }

  /** A row sum of summands in lo .. hi lies in lo * m .. hi * m. */
  lemma {:induction false} RowSumBounds(f: (int, int) -> int, i: int, m: nat, lo: int, hi: int)
    requires forall j :: 0 <= j < m ==> lo <= f(i, j) <= hi
    ensures lo * m <= RowSum(f, i, m) <= hi * m
  {
    if m > 0 {
      RowSumBounds(f, i, m - 1, lo, hi);
    }
  }

  /** A block sum of summands in lo .. hi lies in lo * n * m .. hi * n * m. */
  lemma {:induction false} GridSumBounds(f: (int, int) -> int, n: nat, m: nat, lo: int, hi: int)
    requires forall i, j :: 0 <= i < n && 0 <= j < m ==> lo <= f(i, j) <= hi
    ensures lo * n * m <= GridSum(f, n, m) <= hi * n * m
  {
    if n > 0 {
      GridSumBounds(f, n - 1, m, lo, hi);
      RowSumBounds(f, n - 1, m, lo, hi);
      PeelRow(lo, n, m);
      PeelRow(hi, n, m);
    }
  }

  lemma PeelRow(v: int, n: int, m: int)
    ensures v * n * m == v * (n - 1) * m + v * m
  {
  }

  /** Row i of h and row i' of f agree, so their sums agree. */
  lemma {:induction false} RowSumRowExt(h: (int, int) -> int, i: int, f: (int, int) -> int, i': int, m: nat)
    requires forall j :: 0 <= j < m ==> h(i, j) == f(i', j)
    ensures RowSum(h, i, m) == RowSum(f, i', m)
  {
    if m > 0 {
      RowSumRowExt(h, i, f, i', m - 1);
    }
  }

  /** The first k columns of a row of f rotated right by one. */
  lemma {:induction false} RowSumShiftPrefix(f: (int, int) -> int, h: (int, int) -> int, i: int, m: nat, k: nat)
    requires 1 <= k <= m
    requires h(i, 0) == f(i, m - 1)
    requires forall j :: 1 <= j < m ==> h(i, j) == f(i, j - 1)
    ensures RowSum(h, i, k) == f(i, m - 1) + RowSum(f, i, k - 1)
  {
    if k > 1 {
      RowSumShiftPrefix(f, h, i, m, k - 1);
    }
  }

  /** Rotating a row cyclically by one column leaves its sum unchanged. */
  lemma RowSumShift(f: (int, int) -> int, h: (int, int) -> int, i: int, m: nat)
    requires 1 <= m
    requires h(i, 0) == f(i, m - 1)
    requires forall j :: 1 <= j < m ==> h(i, j) == f(i, j - 1)
    ensures RowSum(h, i, m) == RowSum(f, i, m)
  {
    RowSumShiftPrefix(f, h, i, m, m);
  }

  /** Rotating every row cyclically by one column leaves the block sum unchanged. */
  lemma {:induction false} GridSumColumnShift(f: (int, int) -> int, h: (int, int) -> int, n: nat, m: nat)
    requires 1 <= m
    requires forall i :: 0 <= i < n ==> h(i, 0) == f(i, m - 1)
    requires forall i, j :: 0 <= i < n && 1 <= j < m ==> h(i, j) == f(i, j - 1)
    ensures GridSum(h, n, m) == GridSum(f, n, m)
  {
    if n > 0 {
      GridSumColumnShift(f, h, n - 1, m);
      RowSumShift(f, h, n - 1, m);
    }
  }

  /** The first k rows of the block of f rotated down by one row. */
  lemma {:induction false} GridSumShiftPrefix(f: (int, int) -> int, h: (int, int) -> int, n: nat, m: nat, k: nat)
    requires 1 <= k <= n
    requires forall j :: 0 <= j < m ==> h(0, j) == f(n - 1, j)
    requires forall i, j :: 1 <= i < n && 0 <= j < m ==> h(i, j) == f(i - 1, j)
    ensures GridSum(h, k, m) == RowSum(f, n - 1, m) + GridSum(f, k - 1, m)
  {
    if k == 1 {
      RowSumRowExt(h, 0, f, n - 1, m);
    } else {
      GridSumShiftPrefix(f, h, n, m, k - 1);
      RowSumRowExt(h, k - 1, f, k - 2, m);
    }
  }

  /** Rotating the block cyclically by one row leaves its sum unchanged. */
  lemma GridSumRowShift(f: (int, int) -> int, h: (int, int) -> int, n: nat, m: nat)
    requires 1 <= n
    requires forall j :: 0 <= j < m ==> h(0, j) == f(n - 1, j)
    requires forall i, j :: 1 <= i < n && 0 <= j < m ==> h(i, j) == f(i - 1, j)
    ensures GridSum(h, n, m) == GridSum(f, n, m)
  {
    GridSumShiftPrefix(f, h, n, m, n);
  }
}
