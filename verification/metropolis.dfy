/** The single-spin-flip Metropolis step.

    A trial picks one cell, reads the local statistic (own spin times the sum
    of the four neighbour spins), maps it to an index 0 .. 4 into two tables
    built from the same five-point domain, and, if the acceptance
    probability at that index beats a uniform draw, negates the spin and
    moves the running energy and magnetisation by table lookup.

    Randomness enters as a Trial: the cell the random source chose and the
    uniform draw in [0, 1) it produced.
 */
module Metropolis {
  import opened Lattice
  import opened Observables

  /** Energy change of a flip, by table index (unnormalised): 4 * J per step
      away from the neutral index 2. */
  function EnergyDeltas(J: int): (d: seq<int>)
    ensures |d| == 5
    ensures forall k :: 0 <= k < 5 ==> d[k] == 4 * J * (k - 2)
  {
    [-8 * J, -4 * J, 0, 4 * J, 8 * J]
  }

  /** Magnetisation change of a flip per unit of the new spin (unnormalised). */
  const MagnetDelta: int := 2

  /** Acceptance probabilities by table index, for a temperature whose
      Boltzmann weight of one 4 * J energy step is w = exp(-4 * J / (K_B * T)).
      Entries 0 .. 4 are exp(8J/kT), exp(4J/kT), 1, exp(-4J/kT), exp(-8J/kT),
      which are exactly 1/w^2, 1/w, 1, w, w^2. */
  function ChangeProbabilities(w: real): (t: seq<real>)
    requires 0.0 < w
    ensures |t| == 5
    ensures forall k :: 0 <= k < 5 ==> t[k] > 0.0
    ensures t[2] == 1.0
    ensures t[1] * t[3] == 1.0 && t[0] * t[4] == 1.0
    ensures t[4] == t[3] * t[3] && t[0] == t[1] * t[1]
  {
    [1.0 / (w * w), 1.0 / w, 1.0, w, w * w]
  }

  /** With J >= 0 (so w <= 1) the table never increases along the index, and
      the entries 0 .. 2, whose moves do not raise the energy, are at least 1.
      With J <= 0 (so w >= 1) it is the mirror image: never decreasing, and
      the entries 2 .. 4 are at least 1. */
  lemma ChangeProbabilitiesShape(w: real)
    requires 0.0 < w
    ensures var t := ChangeProbabilities(w);
      && (w <= 1.0 ==> t[0] >= t[1] >= t[2] >= t[3] >= t[4] && t[1] >= 1.0)
      && (w >= 1.0 ==> t[0] <= t[1] <= t[2] <= t[3] <= t[4] && t[3] >= 1.0)
  {
    var t := ChangeProbabilities(w);
    assert t[1] * w == 1.0;
    assert t[0] * (w * w) == 1.0;
    assert t[1] * (w * w) == w;
    if w <= 1.0 {
      assert w * w <= w;
    } else {
      assert w * w >= w;
    }
  }

  /** A larger weight w strictly raises the entries at indices 3 and 4 and
      strictly lowers those at indices 0 and 1; the neutral entry stays 1. */
  lemma AcceptanceIncreasesWithWeight(w1: real, w2: real)
    requires 0.0 < w1 < w2
    ensures ChangeProbabilities(w1)[3] < ChangeProbabilities(w2)[3]
    ensures ChangeProbabilities(w1)[4] < ChangeProbabilities(w2)[4]
    ensures ChangeProbabilities(w1)[1] > ChangeProbabilities(w2)[1]
    ensures ChangeProbabilities(w1)[0] > ChangeProbabilities(w2)[0]
    ensures ChangeProbabilities(w1)[2] == ChangeProbabilities(w2)[2]
  {
    assert w1 * w1 < w1 * w2 < w2 * w2;
    ReciprocalDecreasing(w1, w2);
    ReciprocalDecreasing(w1 * w1, w2 * w2);
  }

  lemma ReciprocalDecreasing(a: real, b: real)
    requires 0.0 < a < b
    ensures 1.0 / a > 1.0 / b
  {
    assert (1.0 / a) * a == 1.0 && (1.0 / b) * b == 1.0;
    assert (1.0 / b) * a < (1.0 / b) * b;
  }

  /** Integer division as Rust's `i8` division does it: toward zero. The
      remainder is smaller than the divisor in magnitude and takes the sign
      of the dividend, unlike Dafny's own `/`, whose remainder is never
      negative. */
  function TruncDiv(a: int, b: int): (q: int)
    requires b > 0
    ensures -b < a - q * b < b
    ensures a >= 0 ==> a - q * b >= 0
    ensures a <= 0 ==> a - q * b <= 0
  {
    if a >= 0 then a / b else -((-a) / b)
  }

  /** Truncating division commutes with negation of the dividend. */
  lemma TruncDivOdd(a: int, b: int)
    requires b > 0
    ensures TruncDiv(-a, b) == -TruncDiv(a, b)
  {
  }

  /** Illustration only: on a negative odd dividend, truncating and Euclidean
      division differ. In the model the dividend `s * ns` is always even, so
      the two never differ at line 130's use. */
  lemma TruncDivNotEuclidean()
    ensures TruncDiv(-3, 2) == -1 && -3 / 2 == -2
  {
  }

  /** Table index of a spin s whose neighbours sum to ns. For a spin and an
      even neighbour sum in -4 .. 4 it lies in 0 .. 4 and the halving is
      exact: s * ns == 2 * (k - 2). */
  function ProbIndex(s: int, ns: int): (k: int)
    ensures IsSpin(s) && -4 <= ns <= 4 && ns % 2 == 0 ==> 0 <= k <= 4 && s * ns == 2 * (k - 2)
  {
    TruncDiv(s * ns, 2) + 2
  }

  /** One trial's randomness: the chosen cell and the uniform draw. */
  datatype Trial = Trial(row: int, col: int, draw: real)

  predicate TrialInBounds(L: Side, t: Trial)
  {
    InBounds(L, (t.row, t.col))
  }

  /** What the random source promises: a cell on the grid, a draw in [0, 1). */
  predicate ValidTrial(L: Side, t: Trial)
  {
    TrialInBounds(L, t) && 0.0 <= t.draw < 1.0
  }

  /** The lattice state: spins, the neighbour table, the acceptance table,
      and the running (unnormalised) energy and magnetisation. */
  datatype Ising = Ising(grid: Grid, neighs: seq<seq<seq<Index>>>, probs: seq<real>, energy: int, magnet: int)

  /** The structural invariant: every cell is a spin, the neighbour table is
      the toroidal one, the acceptance table has five entries. */
  predicate Valid(L: Side, m: Ising)
  {
    SpinGrid(L, m.grid) && m.neighs == NeighbourTable(L) && |m.probs| == 5
  }

  /** The running totals agree with a from-scratch recomputation. */
  predicate Consistent(L: Side, J: int, m: Ising)
  {
    Valid(L, m) && m.energy == ComputeEnergy(L, J, m.grid) && m.magnet == ComputeMagnet(L, m.grid)
  }

  /** A fresh lattice: grid filled by `mode` (Random mode reading coins(i, j)
      for cell (i, j)), the neighbour table, the acceptance table for weight
      w, and energy and magnetisation by full summation. */
  function New(L: Side, J: int, mode: InitMode, coins: (int, int) -> bool, w: real): (m: Ising)
    requires 0.0 < w
    ensures Consistent(L, J, m)
    ensures m.probs == ChangeProbabilities(w)
    ensures forall i, j :: 0 <= i < L && 0 <= j < L ==> m.grid[i][j] == InitCell(i, j, mode, coins(i, j))
  {
    var g := InitGrid(L, mode, coins);
    Ising(g, NeighbourTable(L), ChangeProbabilities(w), ComputeEnergy(L, J, g), ComputeMagnet(L, g))
  }

  /** Sum of the neighbour spins of (i, j), read through the neighbour table. */
  function TableNeighbourSum(L: Side, m: Ising, i: int, j: int): (ns: int)
    requires Valid(L, m) && 0 <= i < L && 0 <= j < L
    ensures ns == NeighbourSum(L, m.grid, i, j)
  {
    var n := m.neighs[i][j];
    At(m.grid, n[0]) + At(m.grid, n[1]) + At(m.grid, n[2]) + At(m.grid, n[3])
  }

  /** The table index a trial reads. */
  function TrialIndex(L: Side, m: Ising, t: Trial): (k: int)
    requires Valid(L, m) && TrialInBounds(L, t)
    ensures 0 <= k < 5
    ensures m.grid[t.row][t.col] * NeighbourSum(L, m.grid, t.row, t.col) == 2 * (k - 2)
  {
    NeighbourSumRange(L, m.grid, t.row, t.col);
    ProbIndex(m.grid[t.row][t.col], TableNeighbourSum(L, m, t.row, t.col))
  }

  /** The Metropolis test: the probability at the trial's index beats the draw. */
  predicate Accepts(L: Side, m: Ising, t: Trial)
    requires Valid(L, m) && TrialInBounds(L, t)
  {
    m.probs[TrialIndex(L, m, t)] > t.draw
  }

  /** One trial flip. On acceptance exactly the chosen spin is negated and the
      totals move by the table entries; on rejection nothing changes. */
  function TryUpdateSpin(L: Side, J: int, m: Ising, t: Trial): (r: Ising)
    requires Valid(L, m) && TrialInBounds(L, t)
    ensures Valid(L, r)
    ensures r.probs == m.probs && r.neighs == m.neighs
    ensures Accepts(L, m, t) ==>
      && (forall c :: InBounds(L, c) ==> At(r.grid, c) == if c == (t.row, t.col) then -At(m.grid, c) else At(m.grid, c))
      && r.energy == m.energy + EnergyDeltas(J)[TrialIndex(L, m, t)]
      && r.magnet == m.magnet + MagnetDelta * r.grid[t.row][t.col]
    ensures !Accepts(L, m, t) ==> r == m
  {
    var k := TrialIndex(L, m, t);
    if m.probs[k] > t.draw then
      var g := Flip(L, m.grid, t.row, t.col);
      assert SpinGrid(L, g) by {
        forall i, j | 0 <= i < L && 0 <= j < L
          ensures IsSpin(g[i][j])
        {
          assert At(g, (i, j)) == g[i][j] && At(m.grid, (i, j)) == m.grid[i][j];
        }
      }
      Ising(g, m.neighs, m.probs, m.energy + EnergyDeltas(J)[k], m.magnet + MagnetDelta * g[t.row][t.col])
    else
      m
  }

  /** 2 * J * s * ns is the table's energy delta when s * ns == 2 * (k - 2). */
  lemma DeltaMatches(J: int, s: int, ns: int, k: int)
    requires 0 <= k < 5 && s * ns == 2 * (k - 2)
    ensures EnergyDeltas(J)[k] == 2 * J * s * ns
  {
    assert 2 * J * s * ns == 2 * J * (s * ns);
  }

  /** The central invariant: a trial flip keeps the incrementally updated
      energy and magnetisation equal to their full recomputation. */
  lemma TryUpdateConsistent(L: Side, J: int, m: Ising, t: Trial)
    requires Consistent(L, J, m) && TrialInBounds(L, t)
    ensures Consistent(L, J, TryUpdateSpin(L, J, m, t))
  {
    var r := TryUpdateSpin(L, J, m, t);
    if Accepts(L, m, t) {
      var a, b := t.row, t.col;
      var g' := Flip(L, m.grid, a, b);
      assert r.grid == g';
      EnergyFlip(L, J, m.grid, a, b);
      MagnetFlip(L, m.grid, a, b);
      DeltaMatches(J, m.grid[a][b], NeighbourSum(L, m.grid, a, b), TrialIndex(L, m, t));
      assert At(m.grid, (a, b)) == m.grid[a][b];
      assert At(g', (a, b)) == g'[a][b];
    }
  }

  /** Metropolis acceptance, for a coupling of either sign with its weight
      w = exp(-4 * J / (K_B * T)) (below 1, equal to 1, or above 1 as J is
      positive, zero or negative): a move that does not raise the energy is
      always taken, and a move raising it by 4 * |J| or 8 * |J| is taken
      exactly when the draw is below exp(-4|J|/kT) or exp(-8|J|/kT), that is
      below w and w^2 for J > 0, and below 1 / w and 1 / w^2 for J < 0. */
  lemma MetropolisRule(L: Side, J: int, m: Ising, t: Trial, w: real)
    requires Valid(L, m) && ValidTrial(L, t)
    requires 0.0 < w && m.probs == ChangeProbabilities(w)
    requires (J > 0 ==> w < 1.0) && (J == 0 ==> w == 1.0) && (J < 0 ==> w > 1.0)
    ensures var dE := EnergyDeltas(J)[TrialIndex(L, m, t)];
      && (dE <= 0 ==> Accepts(L, m, t))
      && (J > 0 && dE == 4 * J ==> (Accepts(L, m, t) <==> t.draw < w))
      && (J > 0 && dE == 8 * J ==> (Accepts(L, m, t) <==> t.draw < w * w))
      && (J < 0 && dE == -4 * J ==> (Accepts(L, m, t) <==> t.draw < 1.0 / w))
      && (J < 0 && dE == -8 * J ==> (Accepts(L, m, t) <==> t.draw < 1.0 / (w * w)))
  {
    var k := TrialIndex(L, m, t);
    AcceptanceByIndex(J, k, w, t.draw, EnergyDeltas(J)[k], Accepts(L, m, t));
  }

  /** The Metropolis rule at one table index, on plain values: acc is the
      outcome of the test at index k, dE the energy change of the move. */
  lemma AcceptanceByIndex(J: int, k: int, w: real, d: real, dE: int, acc: bool)
    requires 0 <= k < 5 && 0.0 <= d < 1.0 && 0.0 < w
    requires (J > 0 ==> w < 1.0) && (J == 0 ==> w == 1.0) && (J < 0 ==> w > 1.0)
    requires dE == 4 * J * (k - 2) && (acc <==> ChangeProbabilities(w)[k] > d)
    ensures dE <= 0 ==> acc
    ensures J > 0 && dE == 4 * J ==> (acc <==> d < w)
    ensures J > 0 && dE == 8 * J ==> (acc <==> d < w * w)
    ensures J < 0 && dE == -4 * J ==> (acc <==> d < 1.0 / w)
    ensures J < 0 && dE == -8 * J ==> (acc <==> d < 1.0 / (w * w))
  {
    ChangeProbabilitiesShape(w);
    SignedStep(J, k);
  }

  /** Which index a delta of a given sign and size comes from. */
  lemma SignedStep(J: int, k: int)
    requires 0 <= k < 5
    ensures 4 * J * (k - 2) <= 0 <==> (J > 0 && k <= 2) || J == 0 || (J < 0 && k >= 2)
    ensures J != 0 ==> (4 * J * (k - 2) == 4 * J <==> k == 3)
    ensures J != 0 ==> (4 * J * (k - 2) == 8 * J <==> k == 4)
    ensures J != 0 ==> (4 * J * (k - 2) == -4 * J <==> k == 1)
    ensures J != 0 ==> (4 * J * (k - 2) == -8 * J <==> k == 0)
  {
  }
}
