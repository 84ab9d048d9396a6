/** Whole-lattice observables, computed from scratch: the nearest-neighbour
    pair sum behind the energy, and the magnetisation.

    Both are kept unnormalised (the Rust simulator normalises both by L * L): the energy is
    -J times half the sum, over every cell and each of its four neighbours,
    of the product of the two spins; the magnetisation is the plain sum of
    the spins. The main results here say how both change when one spin is
    negated, which is what lets the Metropolis step update them by table
    lookup instead of by rescanning the grid.
 */
module Observables {
  import opened Sums
  import opened Lattice

  /** Sum of the four neighbour spins of (i, j). */
  function NeighbourSum(L: Side, g: Grid, i: int, j: int): int
  {
    var n := Neighbours(L, i, j);
    At(g, n[0]) + At(g, n[1]) + At(g, n[2]) + At(g, n[3])
  }

  /** On a spin grid the neighbour sum is an even number in -4 .. 4. */
  lemma NeighbourSumRange(L: Side, g: Grid, i: int, j: int)
    requires SpinGrid(L, g) && 0 <= i < L && 0 <= j < L
    ensures -4 <= NeighbourSum(L, g, i, j) <= 4
    ensures NeighbourSum(L, g, i, j) % 2 == 0
  {
    NeighboursSpec(L, i, j);
  }

  /** The spin of each cell, as a summand. */
  function SpinTerm(g: Grid): (int, int) -> int
  {
    (i, j) => At(g, (i, j))
  }

  /** Each cell's contribution to the pair sum: its spin times its neighbour sum. */
  function CellTerm(L: Side, g: Grid): (int, int) -> int
  {
    (i, j) => At(g, (i, j)) * NeighbourSum(L, g, i, j)
  }

  /** The pair-sum contribution of one direction k (0 up, 1 down, 2 right, 3 left). */
  function DirTerm(L: Side, g: Grid, k: int): (int, int) -> int
    requires 0 <= k < 4
  {
    (i, j) => At(g, (i, j)) * At(g, Neighbours(L, i, j)[k])
  }

  function DirSum(L: Side, g: Grid, k: int): int
    requires 0 <= k < 4
  {
    GridSum(DirTerm(L, g, k), L, L)
  }

  /** Sum over all cells and their four neighbours of the product of the two
      spins; every bond is counted once from each end. */
  function PairSum(L: Side, g: Grid): int
  {
    GridSum(CellTerm(L, g), L, L)
  }

  /** Sum over the bonds of the torus, each taken once, of the product of the
      two spins it joins: every cell's bond to its down and its right neighbour. */
  function BondSum(L: Side, g: Grid): int
  {
    DirSum(L, g, 1) + DirSum(L, g, 2)
  }

  /** The energy, unnormalised: -J times half the pair sum. Halving discards
      the double count, leaving -J times the sum over bonds. */
  function ComputeEnergy(L: Side, J: int, g: Grid): (e: int)
    ensures e == -(J * BondSum(L, g))
  {
    PairSumDoubleCounts(L, g);
    HalveDouble(J, PairSum(L, g), BondSum(L, g));
    -(J * PairSum(L, g)) / 2
  }

  lemma HalveDouble(J: int, p: int, b: int)
    requires p == 2 * b
    ensures -(J * p) / 2 == -(J * b)
  {
    assert -(J * p) == 2 * -(J * b);
  }

  /** The magnetisation, unnormalised: the sum of all spins. On a spin grid it
      lies between -L * L (all down) and L * L (all up). */
  function ComputeMagnet(L: Side, g: Grid): (mg: int)
    ensures SpinGrid(L, g) ==> -(L * L) <= mg <= L * L
  {
    SpinSumBounds(L, g);
    GridSum(SpinTerm(g), L, L)
  }

  lemma SpinSumBounds(L: Side, g: Grid)
    ensures SpinGrid(L, g) ==> -(L * L) <= GridSum(SpinTerm(g), L, L) <= L * L
  {
    if SpinGrid(L, g) {
      forall i, j | 0 <= i < L && 0 <= j < L
        ensures -1 <= SpinTerm(g)(i, j) <= 1
      {
        assert SpinTerm(g)(i, j) == g[i][j];
      }
      GridSumBounds(SpinTerm(g), L, L, -1, 1);
    }
  }

  /** The pair sum splits into its four direction sums. */
  lemma PairSumByDirections(L: Side, g: Grid)
    ensures PairSum(L, g) == DirSum(L, g, 0) + DirSum(L, g, 1) + DirSum(L, g, 2) + DirSum(L, g, 3)
  {
    var d0, d1, d2, d3 := DirTerm(L, g, 0), DirTerm(L, g, 1), DirTerm(L, g, 2), DirTerm(L, g, 3);
    var d01 := (i, j) => d0(i, j) + d1(i, j);
    var d012 := (i, j) => d01(i, j) + d2(i, j);
    GridSumAdd(d0, d1, d01, L, L);
    GridSumAdd(d01, d2, d012, L, L);
    forall i, j | 0 <= i < L && 0 <= j < L
      ensures CellTerm(L, g)(i, j) == d012(i, j) + d3(i, j)
    {
      CellTermSplit(L, g, i, j);
    }
    GridSumAdd(d012, d3, CellTerm(L, g), L, L);
  }

  /** A cell's up bond is the down bond of the cell above it. */
  lemma UpIsDownAbove(L: Side, g: Grid, i: int, j: int)
    requires 0 <= i < L && 0 <= j < L
    ensures DirTerm(L, g, 0)(i, j) == DirTerm(L, g, 1)(if i == 0 then L - 1 else i - 1, j)
  {
    var p := if i == 0 then L - 1 else i - 1;
    NeighboursSpec(L, i, j);
    NeighboursSpec(L, p, j);
    var s, t := At(g, (i, j)), At(g, (p, j));
    DirTermValue(L, g, 0, i, j, s, t);
    DirTermValue(L, g, 1, p, j, t, s);
  }

  /** A cell's left bond is the right bond of the cell before it. */
  lemma LeftIsRightBefore(L: Side, g: Grid, i: int, j: int)
    requires 0 <= i < L && 0 <= j < L
    ensures DirTerm(L, g, 3)(i, j) == DirTerm(L, g, 2)(i, if j == 0 then L - 1 else j - 1)
  {
    var q := if j == 0 then L - 1 else j - 1;
    NeighboursSpec(L, i, j);
    NeighboursSpec(L, i, q);
    var s, t := At(g, (i, j)), At(g, (i, q));
    DirTermValue(L, g, 3, i, j, s, t);
    DirTermValue(L, g, 2, i, q, t, s);
  }

  /** Every vertical bond is seen once looking up and once looking down. */
  lemma UpSumIsDownSum(L: Side, g: Grid)
    ensures DirSum(L, g, 0) == DirSum(L, g, 1)
  {
    var f, h := DirTerm(L, g, 1), DirTerm(L, g, 0);
    forall j | 0 <= j < L
      ensures h(0, j) == f(L - 1, j)
    {
      UpIsDownAbove(L, g, 0, j);
    }
    forall i, j | 1 <= i < L && 0 <= j < L
      ensures h(i, j) == f(i - 1, j)
    {
      UpIsDownAbove(L, g, i, j);
    }
    GridSumRowShift(f, h, L, L);
  }

  /** Every horizontal bond is seen once looking left and once looking right. */
  lemma LeftSumIsRightSum(L: Side, g: Grid)
    ensures DirSum(L, g, 3) == DirSum(L, g, 2)
  {
    var f, h := DirTerm(L, g, 2), DirTerm(L, g, 3);
    forall i | 0 <= i < L
      ensures h(i, 0) == f(i, L - 1)
    {
      LeftIsRightBefore(L, g, i, 0);
    }
    forall i, j | 0 <= i < L && 1 <= j < L
      ensures h(i, j) == f(i, j - 1)
    {
      LeftIsRightBefore(L, g, i, j);
    }
    GridSumColumnShift(f, h, L, L);
  }

  /** The pair sum counts every bond twice, once from each end: it is twice
      the sum of the down and right bonds. */
  lemma PairSumDoubleCounts(L: Side, g: Grid)
    ensures PairSum(L, g) == 2 * BondSum(L, g)
  {
    PairSumByDirections(L, g);
    UpSumIsDownSum(L, g);
    LeftSumIsRightSum(L, g);
  }

  lemma Distribute(s: int, a: int, b: int, c: int, d: int)
    ensures s * (a + b + c + d) == s * a + s * b + s * c + s * d
  {
  }

  /** One cell's contribution is the sum of its four direction contributions. */
  lemma CellTermSplit(L: Side, g: Grid, i: int, j: int)
    ensures CellTerm(L, g)(i, j)
         == DirTerm(L, g, 0)(i, j) + DirTerm(L, g, 1)(i, j) + DirTerm(L, g, 2)(i, j) + DirTerm(L, g, 3)(i, j)
  {
    var n := Neighbours(L, i, j);
    var s, a, b, c, d := At(g, (i, j)), At(g, n[0]), At(g, n[1]), At(g, n[2]), At(g, n[3]);
    DirTermValue(L, g, 0, i, j, s, a);
    DirTermValue(L, g, 1, i, j, s, b);
    DirTermValue(L, g, 2, i, j, s, c);
    DirTermValue(L, g, 3, i, j, s, d);
    CellTermValue(L, g, i, j);
    Distribute(s, a, b, c, d);
  }

  /** A direction contribution is the product of the two spins it pairs. */
  lemma DirTermValue(L: Side, g: Grid, k: int, i: int, j: int, s: int, t: int)
    requires 0 <= k < 4
    requires At(g, (i, j)) == s && At(g, Neighbours(L, i, j)[k]) == t
    ensures DirTerm(L, g, k)(i, j) == s * t
  {
  }

  /** Away from c and from the cell whose k-neighbour is c, negating the
      spin at c leaves the direction-k contribution alone. */
  lemma DirTermFlipElsewhere(L: Side, g: Grid, k: int, a: int, b: int, i: int, j: int)
    requires WellFormed(L, g) && 0 <= a < L && 0 <= b < L && 0 <= k < 4
    requires 0 <= i < L && 0 <= j < L && (i, j) != (a, b)
    requires (i, j) != Neighbours(L, a, b)[Opposite(k)]
    ensures DirTerm(L, Flip(L, g, a, b), k)(i, j) == DirTerm(L, g, k)(i, j)
  {
    var g' := Flip(L, g, a, b);
    NeighbourInverse(L, (i, j), (a, b), k);
    NeighboursSpec(L, i, j);
    var m := Neighbours(L, i, j)[k];
    assert At(g', (i, j)) == At(g, (i, j));
    assert At(g', m) == At(g, m);
  }

  /** At c itself the direction-k contribution changes sign. */
  lemma DirTermFlipHere(L: Side, g: Grid, k: int, a: int, b: int)
    requires WellFormed(L, g) && 0 <= a < L && 0 <= b < L && 0 <= k < 4
    ensures DirTerm(L, Flip(L, g, a, b), k)(a, b) == -DirTerm(L, g, k)(a, b)
  {
    var g' := Flip(L, g, a, b);
    var m := Neighbours(L, a, b)[k];
    NeighboursSpec(L, a, b);
    NeighbourNotSelf(L, (a, b), k);
    var s, t := At(g, (a, b)), At(g, m);
    assert At(g', (a, b)) == -s;
    assert At(g', m) == t;
    DirTermValue(L, g, k, a, b, s, t);
    DirTermValue(L, g', k, a, b, -s, t);
    NegatedFactor(DirTerm(L, g, k)(a, b), DirTerm(L, g', k)(a, b), s, t);
  }

  /** Negating one factor negates the product. */
  lemma NegatedFactor(x: int, y: int, s: int, t: int)
    requires x == s * t
    requires y == (-s) * t || y == t * (-s)
    ensures y == -x
  {
  }

  /** At the cell o whose k-neighbour is c the direction-k contribution
      changes sign too. */
  lemma DirTermFlipOpposite(L: Side, g: Grid, k: int, a: int, b: int)
    requires WellFormed(L, g) && 0 <= a < L && 0 <= b < L && 0 <= k < 4
    ensures var o := Neighbours(L, a, b)[Opposite(k)];
      DirTerm(L, Flip(L, g, a, b), k)(o.0, o.1) == -DirTerm(L, g, k)(o.0, o.1)
      && DirTerm(L, g, k)(o.0, o.1) == At(g, o) * At(g, (a, b))
  {
    var g' := Flip(L, g, a, b);
    var o := Neighbours(L, a, b)[Opposite(k)];
    NeighboursSpec(L, a, b);
    NeighbourNotSelf(L, (a, b), Opposite(k));
    NeighbourInverse(L, o, (a, b), k);
    var s, u := At(g, (a, b)), At(g, o);
    assert Neighbours(L, o.0, o.1)[k] == (a, b);
    assert At(g', o) == u;
    assert At(g', (a, b)) == -s;
    DirTermValue(L, g, k, o.0, o.1, u, s);
    DirTermValue(L, g', k, o.0, o.1, u, -s);
    NegatedFactor(DirTerm(L, g, k)(o.0, o.1), DirTerm(L, g', k)(o.0, o.1), s, u);
  }

  /** Negating the spin at c changes the direction-k sum at exactly two
      cells, c itself and the cell o whose k-neighbour is c, and both of
      their contributions change sign. */
  lemma DirSumFlip(L: Side, g: Grid, k: int, a: int, b: int)
    requires WellFormed(L, g) && 0 <= a < L && 0 <= b < L && 0 <= k < 4
    ensures var o := Neighbours(L, a, b)[Opposite(k)];
      DirSum(L, Flip(L, g, a, b), k)
        == DirSum(L, g, k) - 2 * DirTerm(L, g, k)(a, b) - 2 * DirTerm(L, g, k)(o.0, o.1)
  {
    var g' := Flip(L, g, a, b);
    var o := Neighbours(L, a, b)[Opposite(k)];
    NeighboursSpec(L, a, b);
    NeighbourNotSelf(L, (a, b), Opposite(k));
    var f, h := DirTerm(L, g, k), DirTerm(L, g', k);
    forall i, j | 0 <= i < L && 0 <= j < L && (i != a || j != b) && (i != o.0 || j != o.1)
      ensures f(i, j) == h(i, j)
    {
      DirTermFlipElsewhere(L, g, k, a, b, i, j);
    }
    GridSumTwoPoints(f, h, L, L, a, b, o.0, o.1);
    DirTermFlipHere(L, g, k, a, b);
    DirTermFlipOpposite(L, g, k, a, b);
  }

  /** The contributions of the four cells that have c as their up, down,
      right and left neighbour add up to c's own contribution. */
  lemma OppositeTermsSum(L: Side, g: Grid, a: int, b: int)
    requires 0 <= a < L && 0 <= b < L
    ensures var n := Neighbours(L, a, b);
      DirTerm(L, g, 0)(n[1].0, n[1].1) + DirTerm(L, g, 1)(n[0].0, n[0].1)
        + DirTerm(L, g, 2)(n[3].0, n[3].1) + DirTerm(L, g, 3)(n[2].0, n[2].1)
        == CellTerm(L, g)(a, b)
  {
    var n := Neighbours(L, a, b);
    NeighboursSpec(L, a, b);
    var s, u0, u1, u2, u3 := At(g, (a, b)), At(g, n[0]), At(g, n[1]), At(g, n[2]), At(g, n[3]);
    NeighbourInverse(L, n[1], (a, b), 0);
    NeighbourInverse(L, n[0], (a, b), 1);
    NeighbourInverse(L, n[3], (a, b), 2);
    NeighbourInverse(L, n[2], (a, b), 3);
    DirTermValue(L, g, 0, n[1].0, n[1].1, u1, s);
    DirTermValue(L, g, 1, n[0].0, n[0].1, u0, s);
    DirTermValue(L, g, 2, n[3].0, n[3].1, u3, s);
    DirTermValue(L, g, 3, n[2].0, n[2].1, u2, s);
    CellTermValue(L, g, a, b);
    CollectFactor(DirTerm(L, g, 0)(n[1].0, n[1].1), DirTerm(L, g, 1)(n[0].0, n[0].1),
                  DirTerm(L, g, 2)(n[3].0, n[3].1), DirTerm(L, g, 3)(n[2].0, n[2].1),
                  CellTerm(L, g)(a, b), s, u0, u1, u2, u3);
  }

  lemma CellTermValue(L: Side, g: Grid, i: int, j: int)
    ensures var n := Neighbours(L, i, j);
      CellTerm(L, g)(i, j) == At(g, (i, j)) * (At(g, n[0]) + At(g, n[1]) + At(g, n[2]) + At(g, n[3]))
  {
  }

  lemma CollectFactor(x0: int, x1: int, x2: int, x3: int, c: int, s: int, u0: int, u1: int, u2: int, u3: int)
    requires x0 == u1 * s && x1 == u0 * s && x2 == u3 * s && x3 == u2 * s
    requires c == s * (u0 + u1 + u2 + u3)
    ensures x0 + x1 + x2 + x3 == c
  {
  }

  /** Negating the spin s at c lowers the pair sum by 4 * s * (neighbour sum of c). */
  lemma PairSumFlip(L: Side, g: Grid, a: int, b: int)
    requires WellFormed(L, g) && 0 <= a < L && 0 <= b < L
    ensures PairSum(L, Flip(L, g, a, b)) == PairSum(L, g) - 4 * At(g, (a, b)) * NeighbourSum(L, g, a, b)
  {
    var g' := Flip(L, g, a, b);
    PairSumByDirections(L, g);
    PairSumByDirections(L, g');
    DirSumFlip(L, g, 0, a, b);
    DirSumFlip(L, g, 1, a, b);
    DirSumFlip(L, g, 2, a, b);
    DirSumFlip(L, g, 3, a, b);
    CellTermSplit(L, g, a, b);
    OppositeTermsSum(L, g, a, b);
    assert PairSum(L, g') == PairSum(L, g) - 4 * CellTerm(L, g)(a, b);
    assert CellTerm(L, g)(a, b) == At(g, (a, b)) * NeighbourSum(L, g, a, b);
    Scale4(CellTerm(L, g)(a, b), At(g, (a, b)), NeighbourSum(L, g, a, b));
  }

  lemma Scale4(x: int, s: int, t: int)
    requires x == s * t
    ensures 4 * x == 4 * s * t
  {
  }

  /** Euclidean halving commutes with adding an even amount. */
  lemma HalfShift(x: int, y: int)
    ensures (x + 2 * y) / 2 == x / 2 + y
  {
  }

  /** Negating the spin s at c raises the energy by 2 * J * s * (neighbour sum of c). */
  lemma EnergyFlip(L: Side, J: int, g: Grid, a: int, b: int)
    requires WellFormed(L, g) && 0 <= a < L && 0 <= b < L
    ensures ComputeEnergy(L, J, Flip(L, g, a, b))
         == ComputeEnergy(L, J, g) + 2 * J * At(g, (a, b)) * NeighbourSum(L, g, a, b)
  {
    PairSumFlip(L, g, a, b);
    EnergyShift(J, PairSum(L, g), PairSum(L, Flip(L, g, a, b)), At(g, (a, b)), NeighbourSum(L, g, a, b));
  }

  lemma EnergyShift(J: int, p: int, p': int, s: int, t: int)
    requires p' == p - 4 * s * t
    ensures -(J * p') / 2 == -(J * p) / 2 + 2 * J * s * t
  {
    assert -(J * p') == -(J * p) + 2 * (2 * J * s * t);
    HalfShift(-(J * p), 2 * J * s * t);
  }

  /** Negating the spin s at c changes the magnetisation by -2 * s, that is by
      twice the new spin. */
  lemma MagnetFlip(L: Side, g: Grid, a: int, b: int)
    requires WellFormed(L, g) && 0 <= a < L && 0 <= b < L
    ensures ComputeMagnet(L, Flip(L, g, a, b)) == ComputeMagnet(L, g) + 2 * At(Flip(L, g, a, b), (a, b))
  {
    var g' := Flip(L, g, a, b);
    GridSumPoint(SpinTerm(g), SpinTerm(g'), L, L, a, b);
  }

  /** The pair sum is even, so halving it loses nothing. */
  lemma EnergyHalvingExact(L: Side, J: int, g: Grid)
    ensures PairSum(L, g) % 2 == 0
    ensures 2 * ComputeEnergy(L, J, g) == -(J * PairSum(L, g))
  {
    PairSumDoubleCounts(L, g);
    TwiceHalf(J, PairSum(L, g), BondSum(L, g), ComputeEnergy(L, J, g));
  }

  lemma TwiceHalf(J: int, p: int, b: int, e: int)
    requires p == 2 * b && e == -(J * b)
    ensures p % 2 == 0 && 2 * e == -(J * p)
  {
  }

  /** A cell whose four neighbours all hold t contributes 4 * s * t. */
  lemma CellTermUniform(L: Side, g: Grid, i: int, j: int, s: int, t: int)
    requires At(g, (i, j)) == s
    requires forall k :: 0 <= k < 4 ==> At(g, Neighbours(L, i, j)[k]) == t
    ensures CellTerm(L, g)(i, j) == 4 * s * t
  {
    var n := Neighbours(L, i, j);
    assert NeighbourSum(L, g, i, j) == 4 * t by {
      assert At(g, n[0]) == t && At(g, n[1]) == t && At(g, n[2]) == t && At(g, n[3]) == t;
    }
  }

  /** In a grid of identical spins every cell contributes 4 to the pair sum. */
  lemma UniformCell(L: Side, g: Grid, i: int, j: int, s: int)
    requires IsSpin(s) && 0 <= i < L && 0 <= j < L
    requires WellFormed(L, g) && forall i', j' :: 0 <= i' < L && 0 <= j' < L ==> g[i'][j'] == s
    ensures CellTerm(L, g)(i, j) == 4 && SpinTerm(g)(i, j) == s
  {
    NeighboursSpec(L, i, j);
    CellTermUniform(L, g, i, j, s, s);
  }

  /** Energy of a grid whose pair sum is n * n * v, for v = 4 or v = -4. */
  lemma UniformEnergy(J: int, n: int, p: int, v: int)
    requires v == 4 || v == -4
    requires p == v * n * n
    ensures -(J * p) / 2 == -(v / 2) * J * n * n
  {
    var q := J * n * n;
    assert J * p == v * q;
    if v == 4 {
      assert -(J * p) == 2 * (-2 * q);
    } else {
      assert -(J * p) == 2 * (2 * q);
    }
  }

  /** All spins up: every one of the 4 * L * L neighbour products is +1. */
  lemma AllUpObservables(L: Side, J: int, coins: (int, int) -> bool)
    ensures var g := InitGrid(L, AllUp, coins);
      && PairSum(L, g) == 4 * L * L
      && ComputeEnergy(L, J, g) == -2 * J * L * L
      && ComputeMagnet(L, g) == L * L
  {
    var g := InitGrid(L, AllUp, coins);
    forall i, j | 0 <= i < L && 0 <= j < L
      ensures CellTerm(L, g)(i, j) == 4 && SpinTerm(g)(i, j) == 1
    {
      UniformCell(L, g, i, j, 1);
    }
    GridSumConst(CellTerm(L, g), L, L, 4);
    GridSumConst(SpinTerm(g), L, L, 1);
    UniformEnergy(J, L, PairSum(L, g), 4);
  }

  /** All spins down: the same pair sum as all up, opposite magnetisation. */
  lemma AllDownObservables(L: Side, J: int, coins: (int, int) -> bool)
    ensures var g := InitGrid(L, AllDown, coins);
      && PairSum(L, g) == 4 * L * L
      && ComputeEnergy(L, J, g) == -2 * J * L * L
      && ComputeMagnet(L, g) == -1 * L * L
  {
    var g := InitGrid(L, AllDown, coins);
    forall i, j | 0 <= i < L && 0 <= j < L
      ensures CellTerm(L, g)(i, j) == 4 && SpinTerm(g)(i, j) == -1
    {
      UniformCell(L, g, i, j, -1);
    }
    GridSumConst(CellTerm(L, g), L, L, 4);
    GridSumConst(SpinTerm(g), L, L, -1);
    UniformEnergy(J, L, PairSum(L, g), 4);
  }

  /** The chessboard pattern: +1 exactly on cells of even row + column. */
  predicate IsChessboard(L: Side, g: Grid)
  {
    WellFormed(L, g) && forall i, j :: 0 <= i < L && 0 <= j < L ==> g[i][j] == if (i + j) % 2 == 0 then 1 else -1
  }

  /** On an even side a chessboard cell and each of its neighbours differ. */
  lemma ChessNeighbour(L: Side, g: Grid, i: int, j: int, k: int)
    requires L % 2 == 0 && 0 <= i < L && 0 <= j < L && 0 <= k < 4
    requires IsChessboard(L, g)
    ensures At(g, Neighbours(L, i, j)[k]) == -g[i][j]
  {
    NeighboursSpec(L, i, j);
    var n := Neighbours(L, i, j)[k];
    StepParity(L, i, j, n.0, n.1);
    ChessOpposite(L, g, i, j, n.0, n.1);
  }

  /** Two chessboard cells of different parity hold opposite spins. */
  lemma ChessOpposite(L: Side, g: Grid, i: int, j: int, p: int, q: int)
    requires 0 <= i < L && 0 <= j < L && 0 <= p < L && 0 <= q < L
    requires IsChessboard(L, g)
    requires (p + q) % 2 != (i + j) % 2
    ensures At(g, (p, q)) == -g[i][j]
  {
  }

  /** One step to a toroidal neighbour changes the parity of row + column
      when the side is even. */
  lemma StepParity(L: Side, i: int, j: int, p: int, q: int)
    requires L % 2 == 0 && 0 <= i < L && 0 <= j < L
    requires || (q == j && p == (if i == 0 then L - 1 else i - 1))
             || (q == j && p == (if i == L - 1 then 0 else i + 1))
             || (p == i && q == (if j == L - 1 then 0 else j + 1))
             || (p == i && q == (if j == 0 then L - 1 else j - 1))
    ensures (p + q) % 2 != (i + j) % 2
  {
    if q == j {
      WrapParity(L, i, p, j);
    } else {
      WrapParity(L, j, q, i);
    }
  }

  /** On an even side, stepping one cell along a row or column, wraparound
      included, changes parity. */
  lemma WrapParity(L: Side, i: int, i': int, j: int)
    requires L % 2 == 0 && 0 <= i < L
    requires i' == (if i == 0 then L - 1 else i - 1) || i' == (if i == L - 1 then 0 else i + 1)
    ensures (i' + j) % 2 != (i + j) % 2
  {
    if i' == i + 1 || i' == i - 1 {
    } else if i == 0 {
      assert i' == L - 1;
    } else {
      assert i == L - 1 && i' == 0;
    }
  }

  /** On an even side the chessboard is perfectly antialigned, wraparound
      included: every neighbour product is -1. */
  lemma ChessObservables(L: Side, J: int, coins: (int, int) -> bool)
    requires L % 2 == 0
    ensures var g := InitGrid(L, Chess, coins);
      && PairSum(L, g) == -4 * L * L
      && ComputeEnergy(L, J, g) == 2 * J * L * L
  {
    var g := InitGrid(L, Chess, coins);
    assert IsChessboard(L, g);
    forall i, j | 0 <= i < L && 0 <= j < L
      ensures CellTerm(L, g)(i, j) == -4
    {
      ChessCell(L, g, i, j);
    }
    GridSumConst(CellTerm(L, g), L, L, -4);
    UniformEnergy(J, L, PairSum(L, g), -4);
  }

  lemma ChessCell(L: Side, g: Grid, i: int, j: int)
    requires L % 2 == 0 && 0 <= i < L && 0 <= j < L
    requires IsChessboard(L, g)
    ensures CellTerm(L, g)(i, j) == -4
  {
    forall k | 0 <= k < 4
      ensures At(g, Neighbours(L, i, j)[k]) == -g[i][j]
    {
      ChessNeighbour(L, g, i, j, k);
    }
    CellTermUniform(L, g, i, j, g[i][j], -g[i][j]);
  }
}
