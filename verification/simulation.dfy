/** The simulation driver: sweeps of L * L trial flips.

    The random source becomes a finite stream of trials, consumed in order.
    Thermalisation runs sweeps without recording; evolution runs sweeps and
    records the running (energy, magnetisation) after each one.
 */
module Simulation {
  import opened Lattice
  import opened Observables
  import opened Metropolis

  predicate TrialsInBounds(L: Side, ts: seq<Trial>)
  {
    forall n :: 0 <= n < |ts| ==> TrialInBounds(L, ts[n])
  }

  /** The state after running the first n trials of ts, in order, from m. */
  function Run(L: Side, J: int, m: Ising, ts: seq<Trial>, n: nat): (r: Ising)
    requires Valid(L, m) && TrialsInBounds(L, ts) && n <= |ts|
    ensures Valid(L, r)
    ensures r.probs == m.probs
    decreases n, 1
  {
    if n == 0 then m else LastTrial(L, J, m, ts, n)
  }

  /** Trial n - 1 applied to the state the first n - 1 trials left. */
  function LastTrial(L: Side, J: int, m: Ising, ts: seq<Trial>, n: nat): (r: Ising)
    requires Valid(L, m) && TrialsInBounds(L, ts) && 0 < n <= |ts|
    ensures Valid(L, r)
    ensures r.probs == m.probs
    decreases n, 0
  {
    TryUpdateSpin(L, J, Run(L, J, m, ts, n - 1), ts[n - 1])
  }

  /** Running one more trial is one more step. */
  lemma RunStep(L: Side, J: int, m: Ising, ts: seq<Trial>, n: nat)
    requires Valid(L, m) && TrialsInBounds(L, ts) && n < |ts|
    ensures TrialInBounds(L, ts[n])
    ensures Run(L, J, m, ts, n + 1) == TryUpdateSpin(L, J, Run(L, J, m, ts, n), ts[n])
  {
    assert Run(L, J, m, ts, n + 1) == LastTrial(L, J, m, ts, n + 1);
  }

  /** Over any sequence of trials, accepted or rejected, the running energy
      and magnetisation stay equal to their full recomputation. */
  lemma {:induction false} RunConsistent(L: Side, J: int, m: Ising, ts: seq<Trial>, n: nat)
    requires Consistent(L, J, m) && TrialsInBounds(L, ts) && n <= |ts|
    ensures Consistent(L, J, Run(L, J, m, ts, n))
  {
    if n > 0 {
      var p := n - 1;
      RunConsistent(L, J, m, ts, p);
      RunStep(L, J, m, ts, p);
      TryUpdateConsistent(L, J, Run(L, J, m, ts, p), ts[p]);
    }
  }

  /** Only the trials actually consumed matter: running n trials of a longer
      stream is running n trials of its n-element prefix. */
  lemma {:induction false} RunPrefix(L: Side, J: int, m: Ising, ts: seq<Trial>, us: seq<Trial>, n: nat)
    requires Valid(L, m) && TrialsInBounds(L, ts) && TrialsInBounds(L, us)
    requires n <= |ts| && n <= |us| && ts[..n] == us[..n]
    ensures Run(L, J, m, ts, n) == Run(L, J, m, us, n)
  {
    if n > 0 {
      var p := n - 1;
      assert ts[p] == ts[..n][p] == us[..n][p] == us[p];
      assert ts[..p] == ts[..n][..p];
      assert us[..p] == us[..n][..p];
      RunPrefix(L, J, m, ts, us, p);
      RunStep(L, J, m, ts, p);
      RunStep(L, J, m, us, p);
    }
  }

  lemma MulMono(a: nat, b: nat, s: nat)
    requires a <= b
    ensures a * s <= b * s
  {
  }

  /** Number of trials in the first n sweeps. */
  function SweepEnd(L: Side, n: nat): nat
  {
    n * (L * L)
  }

  lemma MulAssoc(a: int, b: int, c: int)
    ensures a * (b * c) == a * b * c
  {
  }

  lemma SweepEndStep(L: Side, n: nat)
    ensures SweepEnd(L, n + 1) == SweepEnd(L, n) + L * L
  {
  }

  lemma SweepEndMono(L: Side, a: nat, b: nat)
    requires a <= b
    ensures SweepEnd(L, a) <= SweepEnd(L, b)
  {
    MulMono(a, b, L * L);
  }

  /** Equal trial counts give equal states: plain substitution, a solver aid
      that rewrites a run length into the form a later step expects. */
  lemma RunSame(L: Side, J: int, m: Ising, ts: seq<Trial>, a: nat, b: nat)
    requires Valid(L, m) && TrialsInBounds(L, ts) && a <= |ts| && a == b
    ensures Run(L, J, m, ts, a) == Run(L, J, m, ts, b)
  {
  }

  /** Performs trial pos of the stream on the state the earlier trials left,
      and advances the stream position. */
  method NextTrial(L: Side, J: int, m: Ising, ts: seq<Trial>, r: Ising, pos: nat) returns (r': Ising, next: nat)
    requires Valid(L, m) && TrialsInBounds(L, ts) && pos < |ts|
    requires r == Run(L, J, m, ts, pos)
    ensures next == pos + 1
    ensures r' == Run(L, J, m, ts, next)
  {
    RunStep(L, J, m, ts, pos);
    r', next := TryUpdateSpin(L, J, r, ts[pos]), pos + 1;
  }

  /** Sweep k: the L * L trials following the first k sweeps. */
  method Sweep(L: Side, J: int, m: Ising, ts: seq<Trial>, r0: Ising, k: nat) returns (r: Ising, used: nat)
    requires Valid(L, m) && TrialsInBounds(L, ts)
    requires SweepEnd(L, k + 1) <= |ts|
    requires r0 == Run(L, J, m, ts, SweepEnd(L, k))
    ensures used == SweepEnd(L, k + 1)
    ensures r == Run(L, J, m, ts, used)
  {
    SweepEndStep(L, k);
    var start := SweepEnd(L, k);
    var stop := start + L * L;
    r := r0;
    var pos := start;
    while pos < stop
      invariant start <= pos <= stop
      invariant r == Run(L, J, m, ts, pos)
    {
      r, pos := NextTrial(L, J, m, ts, r, pos);
    }
    RunSame(L, J, m, ts, pos, stop);
    used := stop;
  }

  /** Thermalisation: nSweeps sweeps of L * L trials each, nothing recorded.
      Exactly nSweeps * L * L trials are consumed, rejected ones included. */
  method Thermalize(L: Side, J: int, m: Ising, nSweeps: nat, ts: seq<Trial>) returns (r: Ising, used: nat)
    requires Valid(L, m) && TrialsInBounds(L, ts)
    requires SweepEnd(L, nSweeps) <= |ts|
    ensures used == nSweeps * L * L && used <= |ts|
    ensures r == Run(L, J, m, ts, used)
    ensures Consistent(L, J, m) ==> Consistent(L, J, r)
  {
    r, used := m, 0;
    var sweep := 0;
    while sweep < nSweeps
      invariant 0 <= sweep <= nSweeps
      invariant used == SweepEnd(L, sweep) && used <= |ts|
      invariant r == Run(L, J, m, ts, used)
    {
      SweepEndMono(L, sweep + 1, nSweeps);
      r, used := Sweep(L, J, m, ts, r, sweep);
      sweep := sweep + 1;
    }
    MulAssoc(nSweeps, L, L);
    if Consistent(L, J, m) {
      RunConsistent(L, J, m, ts, used);
    }
  }

  /** The (energy, magnetisation) pair a sweep reports. */
  function Observed(m: Ising): (int, int)
  {
    (m.energy, m.magnet)
  }

  /** Record s holds the running totals after s + 1 complete sweeps. */
  predicate Recorded(L: Side, J: int, m: Ising, ts: seq<Trial>, records: seq<(int, int)>, s: nat)
    requires Valid(L, m) && TrialsInBounds(L, ts) && s < |records|
  {
    SweepEnd(L, s + 1) <= |ts| && records[s] == Observed(Run(L, J, m, ts, SweepEnd(L, s + 1)))
  }

  /** Appending the totals after one more sweep keeps every record in place. */
  lemma RecordedAppend(L: Side, J: int, m: Ising, ts: seq<Trial>, records: seq<(int, int)>, r: Ising)
    requires Valid(L, m) && TrialsInBounds(L, ts)
    requires forall s: nat :: s < |records| ==> Recorded(L, J, m, ts, records, s)
    requires SweepEnd(L, |records| + 1) <= |ts| && r == Run(L, J, m, ts, SweepEnd(L, |records| + 1))
    ensures forall s: nat :: s < |records| + 1 ==> Recorded(L, J, m, ts, records + [Observed(r)], s)
  {
    var n := |records|;
    var after := records + [Observed(r)];
    forall s: nat | s < n + 1
      ensures Recorded(L, J, m, ts, after, s)
    {
      if s == n {
      } else {
        assert Recorded(L, J, m, ts, records, s);
      }
    }
  }

  /** Record s also equals the from-scratch energy and magnetisation of the
      grid after s + 1 sweeps. */
  predicate RecordedExact(L: Side, J: int, m: Ising, ts: seq<Trial>, records: seq<(int, int)>, s: nat)
    requires Valid(L, m) && TrialsInBounds(L, ts) && s < |records|
  {
    Recorded(L, J, m, ts, records, s) &&
    var g := Run(L, J, m, ts, SweepEnd(L, s + 1)).grid;
    records[s] == (ComputeEnergy(L, J, g), ComputeMagnet(L, g))
  }

  /** From a consistent start, every record is exact. */
  lemma RecordedAllExact(L: Side, J: int, m: Ising, ts: seq<Trial>, records: seq<(int, int)>)
    requires Consistent(L, J, m) && TrialsInBounds(L, ts)
    requires forall s: nat :: s < |records| ==> Recorded(L, J, m, ts, records, s)
    ensures forall s: nat :: s < |records| ==> RecordedExact(L, J, m, ts, records, s)
  {
    forall s: nat | s < |records|
      ensures RecordedExact(L, J, m, ts, records, s)
    {
      assert Recorded(L, J, m, ts, records, s);
      RunConsistent(L, J, m, ts, SweepEnd(L, s + 1));
    }
  }

  /** Production run: nIters sweeps, one record after each. Record s is the
      running totals after (s + 1) * L * L trials; when the start state is
      consistent it is also the from-scratch energy and magnetisation of the
      grid at that point. */
  method Evolve(L: Side, J: int, m: Ising, nIters: nat, ts: seq<Trial>) returns (r: Ising, records: seq<(int, int)>)
    requires Valid(L, m) && TrialsInBounds(L, ts)
    requires SweepEnd(L, nIters) <= |ts|
    ensures |records| == nIters
    ensures r == Run(L, J, m, ts, SweepEnd(L, nIters))
    ensures forall s: nat :: s < nIters ==> Recorded(L, J, m, ts, records, s)
    ensures Consistent(L, J, m) ==> Consistent(L, J, r)
  {
    r, records := m, [];
    var used := 0;
    while |records| < nIters
      invariant |records| <= nIters
      invariant used == SweepEnd(L, |records|) && used <= |ts|
      invariant r == Run(L, J, m, ts, used)
      invariant forall s: nat :: s < |records| ==> Recorded(L, J, m, ts, records, s)
    {
      SweepEndMono(L, |records| + 1, nIters);
      r, used := Sweep(L, J, m, ts, r, |records|);
      RecordedAppend(L, J, m, ts, records, r);
      records := records + [Observed(r)];
    }
    RunSame(L, J, m, ts, used, SweepEnd(L, nIters));
    if Consistent(L, J, m) {
      RunConsistent(L, J, m, ts, used);
    }
  }
}
