# Metropolis simulation of the 2-D Ising model, in Dafny

This project models the simulator in `ising_threaded.rs` of `guallart/ising`,
a Rust program. Despite the file's name it contains no threads, and none are
modelled. The simulator places spins of value +1 or -1 on an L x L square
lattice that wraps around at the edges, so the lattice is a torus. It evolves
the lattice with the single-spin-flip Metropolis algorithm and records the
energy and the magnetisation after every sweep of L * L trial flips.

The program keeps the energy and the magnetisation up to date cheaply. A full
sum over the lattice is computed once, when the lattice is built. After that,
each accepted flip moves the totals by an entry of a five-entry table, picked
by the index `(s * ns) / 2 + 2`. Here `s` is the chosen spin and `ns` is the sum
of its four neighbours. This model proves that the shortcut is sound: after
any sequence of trials, the running totals equal a full recomputation from
the grid.

Modules, one file each:

- `Sums` (`sums.dfy`): sums of a cell function over a block, and how such a
  sum changes when the summand changes at one or two cells.
- `Lattice` (`lattice.dfy`): side length, grid, the initial spin for each
  mode, the neighbour table with wraparound, neighbour symmetry, and the
  flip of one spin.
- `Observables` (`observables.dfy`): the from-scratch energy and
  magnetisation. Also how each one changes when one spin is flipped, and
  their values on the uniform and chessboard starting grids.
- `Metropolis` (`metropolis.dfy`): the energy and magnetisation delta tables,
  the acceptance-probability table, the table index, the lattice state, and
  one trial flip.
- `Simulation` (`simulation.dfy`): runs of trials, the sweep, thermalisation
  and evolution.

Both observables are kept unnormalised and exact:

- the energy is `-(J * P) / 2`, where `P` is the sum over every cell and each
  of its four neighbours of the product of their spins;
- the magnetisation is the plain sum of the spins.

The source multiplies both by `1 / (L * L)`, and it scales the two delta
tables by the same factor. Dropping that factor everywhere changes none of
the relations proved here. The coupling `J` is an integer parameter of either
sign.

Randomness becomes data. Each trial is a `Trial(row, col, draw)`: the cell
the random source chose and the uniform number it drew. A run consumes a
stream of trials in order. The coin flips of the `Random` starting mode are a
function `coins(i, j)`.

Where each part of `ising_threaded.rs` lives:

- `ENERGY_DELTAS` and `MAGNET_DELTA` (lines 13-22): `Metropolis.EnergyDeltas`
  and `Metropolis.MagnetDelta`.
- `compute_change_probabilities` (lines 24-33): `Metropolis.ChangeProbabilities`.
- `init_cell` (lines 35-54): `Lattice.InitCell`; the grid of line 78 is
  `Lattice.InitGrid`.
- `neighbours_indices` (lines 56-63): `Lattice.Neighbours`; the table of line
  79 is `Lattice.NeighbourTable`.
- `new` (lines 75-97): `Metropolis.New`, building a `Metropolis.Ising` state.
- `compute_energy` (lines 99-111): `Observables.ComputeEnergy`, over the
  doubly counted sum `Observables.PairSum`.
- `compute_magnet` (lines 113-117): `Observables.ComputeMagnet`.
- `try_update_spin` (lines 119-141): `Metropolis.TryUpdateSpin`. The
  neighbour sum of lines 124-127 is `Metropolis.TableNeighbourSum`, the index
  of line 130 is `Metropolis.ProbIndex` (with the truncating division
  `Metropolis.TruncDiv`), and the test of line 133 is `Metropolis.Accepts`.
- `thermalize` (lines 143-150): `Simulation.Thermalize`, built from
  `Simulation.Sweep`; the state after n trials is `Simulation.Run`.
- `evolve` (lines 152-161): `Simulation.Evolve`.

## Model

| member | source | states |
|---|---|---|
| Lattice.InitCell | ising_threaded.rs:35-54 | Every starting mode yields a spin, +1 or -1 |
| Lattice.InitGridModes | ising_threaded.rs:35-54 | AllUp puts +1 in every cell and AllDown puts -1. Chess puts +1 exactly where row + column is even. Random puts +1 exactly where the cell's coin is true |
| Lattice.InitGrid | ising_threaded.rs:78 | The starting grid is L x L, holds `init_cell` of each cell's own coordinates, and contains only spins |
| Lattice.Neighbours | ising_threaded.rs:56-63 | Exactly four indices. For an in-bounds cell they are up, down, right and left, in that order, each one step away, wrapping to the opposite edge at row or column 0 and L - 1 |
| Lattice.NeighboursSpec | ising_threaded.rs:56-63 | All four neighbours of an in-bounds cell are in bounds |
| Lattice.NeighbourTable | ising_threaded.rs:79 | The neighbour table is L x L, each entry holds four in-bounds indices, and entry (i, j) is the neighbour list of (i, j) |
| Lattice.NeighbourNotSelf | ising_threaded.rs:56-63 | For side length at least 2, no cell is its own neighbour in any direction |
| Lattice.NeighbourInverse | ising_threaded.rs:56-63 | x's neighbour in direction k is c exactly when c's neighbour in the opposite direction is x |
| Lattice.NeighbourSymmetry | ising_threaded.rs:56-63 | c lists n as a neighbour exactly as many times as n lists c, counting repeats |
| Lattice.Flip | ising_threaded.rs:135 | Flipping (i, j) negates that cell, leaves every other cell as it was, and keeps the grid L x L |
| Observables.NeighbourSumRange | ising_threaded.rs:124-127 | On a spin grid, the sum of the four neighbour spins is even and lies in -4 .. 4 |
| Observables.PairSumDoubleCounts | ising_threaded.rs:102-106 | The sum over every cell and each of its four neighbours counts every bond twice: it equals twice the sum over each cell's down and right bonds. It rests on Observables.UpSumIsDownSum and Observables.LeftSumIsRightSum, which show by reindexing over the torus that the up sum equals the down sum and the left sum the right sum |
| Observables.UpSumIsDownSum | ising_threaded.rs:102-106 | Summed over the whole torus, each cell's up bond term equals each cell's down bond term |
| Observables.LeftSumIsRightSum | ising_threaded.rs:102-106 | Summed over the whole torus, each cell's left bond term equals each cell's right bond term |
| Observables.ComputeEnergy | ising_threaded.rs:99-111 | The energy is -J times the sum over bonds, each bond taken once, which is what discarding the doubly counted interactions at lines 108-110 promises |
| Observables.EnergyHalvingExact | ising_threaded.rs:108-110 | On every grid the doubly counted pair sum is even, so the halving at line 110 is exact: twice the energy is -J times the pair sum |
| Observables.ComputeMagnet | ising_threaded.rs:113-117 | The magnetisation of a spin grid lies between -L * L and L * L |
| Observables.PairSumFlip | ising_threaded.rs:99-111 | Negating the spin s at a cell lowers the pair sum by 4 * s * (its neighbour sum), because both copies of each of its four bonds change sign |
| Observables.EnergyFlip | ising_threaded.rs:99-111 | Negating the spin s at a cell raises the recomputed energy by exactly 2 * J * s * (its neighbour sum) |
| Observables.MagnetFlip | ising_threaded.rs:113-117 | Negating one spin changes the recomputed magnetisation by twice the new spin |
| Observables.AllUpObservables | ising_threaded.rs:99-117 | On the grid the AllUp mode builds (line 51), every one of the 4 * L * L neighbour products is +1. The energy is -2 * J * L * L and the magnetisation is L * L |
| Observables.AllDownObservables | ising_threaded.rs:99-117 | On the grid the AllDown mode builds (line 52), the pair sum and energy equal the all-up ones, and the magnetisation is -L * L |
| Observables.ChessObservables | ising_threaded.rs:99-111 | For even L, every neighbour pair of the grid the Chess mode builds (lines 44-50) is antialigned across the wrap too. The pair sum is -4 * L * L and the energy is 2 * J * L * L |
| Metropolis.EnergyDeltas | ising_threaded.rs:13-19 | Five entries, the one at index k being 4 * J * (k - 2): each step of the index away from the neutral entry 2 adds 4J |
| Metropolis.ChangeProbabilities | ising_threaded.rs:24-33 | The five probabilities are positive and the middle one is 1. Opposite entries are reciprocal, and each outer entry is the square of its inner neighbour. These are the relations between exp(8J/kT), exp(4J/kT), 1, exp(-4J/kT) and exp(-8J/kT) |
| Metropolis.ChangeProbabilitiesShape | ising_threaded.rs:24-33 | For J >= 0 (w <= 1) the table never increases along the index and the entries 0 to 2 are at least 1. For J <= 0 (w >= 1) it never decreases and the entries 2 to 4 are at least 1. The sign of J fixes the side of 1 on which w lies only for a positive temperature |
| Metropolis.AcceptanceIncreasesWithWeight | ising_threaded.rs:27-31 | A larger weight w strictly raises the entries at indices 3 and 4, strictly lowers those at indices 0 and 1, and leaves the neutral entry at 1 |
| Metropolis.TruncDiv | ising_threaded.rs:130 | The `/` of line 130 on integers rounds toward zero: the remainder is smaller than the divisor in magnitude and has the sign of the dividend |
| Metropolis.TruncDivOdd | ising_threaded.rs:130 | Dividing a negated dividend gives the negated quotient, which Dafny's Euclidean division does not |
| Metropolis.ProbIndex | ising_threaded.rs:130 | For a spin and an even neighbour sum in -4 .. 4, the index `(s * ns) / 2 + 2`, with the division truncating toward zero, lies in 0 .. 4, and the division is exact |
| Metropolis.TableNeighbourSum | ising_threaded.rs:124-127 | Adding the spins at the four stored neighbour indices gives the neighbour sum of the cell |
| Metropolis.TrialIndex | ising_threaded.rs:121-130 | The index a trial reads is in bounds for both tables. Its offset from 2 is half of spin times neighbour sum |
| Metropolis.New | ising_threaded.rs:75-97 | A fresh lattice holds the mode's spins in every cell. Its acceptance table is the one for the temperature. Its energy and magnetisation equal the full recomputation |
| Metropolis.TryUpdateSpin | ising_threaded.rs:119-141 | On acceptance, only the chosen spin is negated, the energy moves by the table delta at the trial's index, and the magnetisation moves by 2 * the new spin. On rejection the state is unchanged. Spins stay spins and both tables are untouched |
| Metropolis.TryUpdateConsistent | ising_threaded.rs:119-141 | If the running energy and magnetisation equal the recomputation before a trial, accepted or not, they still do after it |
| Metropolis.MetropolisRule | ising_threaded.rs:133 | For a coupling of any sign, a move that does not raise the energy is always accepted. A move raising it by 4 * abs(J) or 8 * abs(J) is accepted exactly when the draw is below exp(-4 abs(J)/kT) or exp(-8 abs(J)/kT): w and w^2 for J > 0, 1 / w and 1 / w^2 for J < 0 |
| Simulation.Run | ising_threaded.rs:145-148 | Any number of trials from a valid state keeps every cell a spin, and leaves the neighbour table and the acceptance table unchanged |
| Simulation.RunConsistent | ising_threaded.rs:119-150 | Over any sequence of trials from a consistent state, the running energy and magnetisation stay equal to a full recomputation |
| Simulation.RunPrefix | ising_threaded.rs:145-148 | Running n trials depends only on the first n trials of the stream |
| Simulation.Sweep | ising_threaded.rs:146-148 | A sweep performs exactly L * L trials after the earlier sweeps, rejected ones included |
| Simulation.Thermalize | ising_threaded.rs:143-150 | Thermalisation consumes exactly nSweeps * L * L trials, and its result is the run of that many trials. From a consistent state the result is consistent |
| Simulation.Evolve | ising_threaded.rs:152-161 | Evolution emits exactly nIters records. Record s is the running (energy, magnetisation) after (s + 1) * L * L trials, and the final state is the run of nIters * L * L trials. From a consistent state the final state is consistent |
| Simulation.RecordedAppend | ising_threaded.rs:155-160 | Writing the totals after one more sweep keeps every earlier record in place and adds the record for that sweep |
| Simulation.RecordedAllExact | ising_threaded.rs:152-161 | From a consistent start, every record equals the from-scratch energy and magnetisation of the grid at that point |

## Left out

- `random_generator.rs` is replaced by data. Each trial's chosen cell and uniform draw arrive as a `Trial`, and the `Random` mode's coins arrive as a function of the cell. Uniformity, independence, and the order of drawing are not modelled.
- Floating point is not modelled. Energy and magnetisation are exact integers, and the normalisation `NORM_C` (line 9) is dropped from the totals and from both delta tables. Rounding errors from float accumulation are not modelled.
- Metropolis.ChangeProbabilities: the table is given by its weight w = exp(-4J/kT) as [1/w², 1/w, 1, w, w²] over the reals. `exp` itself, `K_B` and the temperature are not modelled, so the contract states the relations among the entries rather than their float values.
- Metropolis.AcceptanceIncreasesWithWeight: the temperature enters only through the weight w = exp(-4J/kT), so the lemma is monotonicity in w. That w rises with the temperature when J > 0, and falls with it when J < 0, is a property of `exp` and is not modelled.
- Metropolis.MetropolisRule: the sign of J is tied to w by a precondition (w < 1, w = 1 or w > 1 as J is positive, zero or negative), which `exp` would guarantee for a positive temperature but the model cannot derive. At a negative temperature, which the source does not reject, J > 0 gives w > 1.
- The coupling `J` is an `f64` in the source, imported at line 1 and used in float arithmetic at lines 14-18, 27-31 and 104. It is modelled as an integer, which is exact because every relation proved here is linear in J: the delta tables, the energy, and its change under a flip.
- `constants.rs` is not part of this model. L and J are parameters, with L >= 2, and so are the number of sweeps and `N_ITERS`. At L = 1 a cell would be its own neighbour and the delta tables would no longer match the recomputation.
- The `RandomDist` mode (`types_def.rs:15`) has no arm in the `match` of `init_cell` (lines 36-53). That match is not exhaustive, so `ising_threaded.rs` as written does not compile. The model follows the evident intent: `InitMode` has only the four implemented modes.
- Spins are `i8` in the source. Every spin, neighbour sum and product stays within -4 .. 4, so `int` is used without modelling overflow. `usize` indices are naturals; `i + L - 1` never underflows for in-bounds i.
- The `ndarray` storage is modelled as sequences of rows. Line 83 builds an `IsingModel`, a type the file neither declares nor imports (lines 1-6), while the struct of line 65 is `IsingModelThreaded`. So the file as written does not compile on this count either. The model follows the evident intent, `Self` being `IsingModelThreaded`: that state is `Metropolis.Ising`. `main.rs` (lines 2 and 7) runs a separate module, `ising`, which is not part of this model.
- Simulation.Evolve: the file creation and `writeln!` (lines 154 and 159) become the returned sequence of records. That the records equal the recomputed observables is stated by the separate lemma `Simulation.RecordedAllExact`, not by Evolve's own contract.
- `main.rs` is not modelled: the temperature sweep, `linspace` and file naming are driver glue.
