/** The square spin lattice: side length, spins, cell indices, the initial
    spin configurations and the toroidal neighbour topology.
 */
module Lattice {

  /** Side length of the square lattice. At side 1 a cell would be its own
      neighbour, which the flip bookkeeping does not allow for. */
  type Side = n: int | 2 <= n witness 2

  /** A cell index (row, column). */
  type Index = (int, int)

  /** Spins stored row by row; a well-formed grid is L x L. */
  type Grid = seq<seq<int>>

  /** How the starting grid is filled. */
  datatype InitMode =
    | Random   // one fair coin per cell
    | Chess    // alternating by parity of row + column
    | AllUp
    | AllDown

  predicate InBounds(L: Side, c: Index)
  {
    0 <= c.0 < L && 0 <= c.1 < L
  }

  predicate WellFormed(L: Side, g: Grid)
  {
    |g| == L && forall i :: 0 <= i < L ==> |g[i]| == L
  }

  predicate IsSpin(s: int)
  {
    s == 1 || s == -1
  }

  /** A well-formed grid whose every cell holds +1 or -1. */
  predicate SpinGrid(L: Side, g: Grid)
  {
    WellFormed(L, g) && forall i, j :: 0 <= i < L && 0 <= j < L ==> IsSpin(g[i][j])
  }

  /** The spin at c, or 0 off the grid (only ever read in bounds). */
  function At(g: Grid, c: Index): int
  {
    if 0 <= c.0 < |g| && 0 <= c.1 < |g[c.0]| then g[c.0][c.1] else 0
  }

  /** Starting spin of cell (i, j); `coin` is the random boolean drawn for
      the cell, consulted only in Random mode. */
  function InitCell(i: nat, j: nat, mode: InitMode, coin: bool): (s: int)
    ensures IsSpin(s)
  {
    match mode
    case Random => if coin then 1 else -1
    case Chess => if (i + j) % 2 == 0 then 1 else -1
    case AllUp => 1
    case AllDown => -1
  }

  /** The starting grid, cell (i, j) drawing the coin coins(i, j). */
  function InitGrid(L: Side, mode: InitMode, coins: (int, int) -> bool): (g: Grid)
    ensures WellFormed(L, g)
    ensures forall i, j :: 0 <= i < L && 0 <= j < L ==> g[i][j] == InitCell(i, j, mode, coins(i, j))
    ensures SpinGrid(L, g)
  {
    seq(L, i requires 0 <= i < L => seq(L, j requires 0 <= j < L => InitCell(i, j, mode, coins(i, j))))
  }

  /** What each mode puts in every cell. */
  lemma InitGridModes(L: Side, mode: InitMode, coins: (int, int) -> bool, i: int, j: int)
    requires 0 <= i < L && 0 <= j < L
    ensures mode == AllUp ==> InitGrid(L, mode, coins)[i][j] == 1
    ensures mode == AllDown ==> InitGrid(L, mode, coins)[i][j] == -1
    ensures mode == Chess ==> (InitGrid(L, mode, coins)[i][j] == 1 <==> (i + j) % 2 == 0)
    ensures mode == Random ==> (InitGrid(L, mode, coins)[i][j] == 1 <==> coins(i, j))
  {
  }

  /** x mod L for 0 <= x < 3L, without division. */
  lemma SmallMod(x: int, L: Side)
    requires 0 <= x < 3 * L
    ensures x % L == if x < L then x else if x < 2 * L then x - L else x - 2 * L
  {
    if L <= x < 2 * L {
      assert x == 1 * L + (x - L);
    } else if 2 * L <= x {
      assert x == 2 * L + (x - 2 * L);
    }
  }

  /** The four toroidal neighbours of (i, j): up, down, right, left. For a
      cell on the grid each one steps by one and wraps to the far edge. */
  function Neighbours(L: Side, i: int, j: int): (r: seq<Index>)
    ensures |r| == 4
    ensures 0 <= i < L && 0 <= j < L ==>
      r == [(if i == 0 then L - 1 else i - 1, j), (if i == L - 1 then 0 else i + 1, j),
            (i, if j == L - 1 then 0 else j + 1), (i, if j == 0 then L - 1 else j - 1)]
  {
    WrapSteps(L, i, j);
    [((i + L - 1) % L, j), ((i + L + 1) % L, j), (i, (j + L + 1) % L), (i, (j + L - 1) % L)]
  }

  /** Stepping by one in each direction with wraparound, without division. */
  lemma WrapSteps(L: Side, i: int, j: int)
    ensures 0 <= i < L && 0 <= j < L ==>
      && (i + L - 1) % L == (if i == 0 then L - 1 else i - 1)
      && (i + L + 1) % L == (if i == L - 1 then 0 else i + 1)
      && (j + L + 1) % L == (if j == L - 1 then 0 else j + 1)
      && (j + L - 1) % L == (if j == 0 then L - 1 else j - 1)
  {
    if 0 <= i < L && 0 <= j < L {
      SmallMod(i + L - 1, L);
      SmallMod(i + L + 1, L);
      SmallMod(j + L + 1, L);
      SmallMod(j + L - 1, L);
    }
  }

  /** Every in-bounds cell has four in-bounds neighbours. */
  lemma NeighboursSpec(L: Side, i: int, j: int)
    requires 0 <= i < L && 0 <= j < L
    ensures forall k :: 0 <= k < 4 ==> InBounds(L, Neighbours(L, i, j)[k])
  {
  }

  /** The neighbour table: entry (i, j) holds the neighbours of (i, j). */
  function NeighbourTable(L: Side): (t: seq<seq<seq<Index>>>)
    ensures |t| == L
    ensures forall i :: 0 <= i < L ==> |t[i]| == L
    ensures forall i, j :: 0 <= i < L && 0 <= j < L ==>
      |t[i][j]| == 4 && forall k :: 0 <= k < 4 ==> InBounds(L, t[i][j][k]) && t[i][j][k] == Neighbours(L, i, j)[k]
  {
    seq(L, i => seq(L, j => Neighbours(L, i, j)))
  }

  /** The direction opposite to k: up <-> down, right <-> left. */
  function Opposite(k: int): int
  {
    if k == 0 then 1 else if k == 1 then 0 else if k == 2 then 3 else 2
  }

  /** No cell is its own neighbour (this needs L >= 2). */
  lemma NeighbourNotSelf(L: Side, c: Index, k: int)
    requires InBounds(L, c) && 0 <= k < 4
    ensures Neighbours(L, c.0, c.1)[k] != c
  {
    NeighboursSpec(L, c.0, c.1);
  }

  /** x's k-neighbour is c exactly when x is c's neighbour in the opposite direction. */
  lemma NeighbourInverse(L: Side, x: Index, c: Index, k: int)
    requires InBounds(L, x) && InBounds(L, c) && 0 <= k < 4
    ensures Neighbours(L, x.0, x.1)[k] == c <==> x == Neighbours(L, c.0, c.1)[Opposite(k)]
  {
    NeighboursSpec(L, x.0, x.1);
    NeighboursSpec(L, c.0, c.1);
  }

  function Indicator(b: bool): nat
  {
    if b then 1 else 0
  }

  /** How often v occurs in a four-element sequence. */
  lemma MultisetOfFour(s: seq<Index>, v: Index)
    requires |s| == 4
    ensures multiset(s)[v]
         == Indicator(s[0] == v) + Indicator(s[1] == v) + Indicator(s[2] == v) + Indicator(s[3] == v)
  {
    assert s == [s[0]] + [s[1]] + [s[2]] + [s[3]];
  }

  /** Symmetry of the neighbour relation counting multiplicity: c lists n
      as often as n lists c (at L = 2, up and down coincide and are listed twice). */
  lemma NeighbourSymmetry(L: Side, c: Index, n: Index)
    requires InBounds(L, c) && InBounds(L, n)
    ensures multiset(Neighbours(L, c.0, c.1))[n] == multiset(Neighbours(L, n.0, n.1))[c]
  {
    var nc := Neighbours(L, c.0, c.1);
    var nn := Neighbours(L, n.0, n.1);
    NeighbourInverse(L, n, c, 0);
    NeighbourInverse(L, n, c, 1);
    NeighbourInverse(L, n, c, 2);
    NeighbourInverse(L, n, c, 3);
    MultisetOfFour(nc, n);
    MultisetOfFour(nn, c);
  }

  /** The grid with the spin at (i, j) negated. */
  function Flip(L: Side, g: Grid, i: int, j: int): (r: Grid)
    requires WellFormed(L, g) && 0 <= i < L && 0 <= j < L
    ensures WellFormed(L, r)
    ensures forall c :: InBounds(L, c) ==> At(r, c) == if c == (i, j) then -At(g, c) else At(g, c)
  {
    g[i := g[i][j := -g[i][j]]]
  }
}
