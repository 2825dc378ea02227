/**
 * The analysis drivers of src/Analysis.cpp: `dcAnalysis`, which computes the
 * operating point, and `transientAnalysis`, which repeats the solve at fixed
 * time steps and records node voltages and source currents.
 *
 * Assembling the MNA system (`set_MNA_A` followed by `set_MNA_RHS`) is not part
 * of this model: it is an oracle `assemble` from the delta_t in force and the
 * ordinal of the assembly (0 for the DC solve, s for the s-th transient step) to
 * a matrix and a right-hand side. Every other step is modelled as written, with
 * `double` as exact `real`, so the time points are exact multiples of the step.
 */
module Analysis {
  import opened Matrices
  import opened Nodes
  import opened VoltageSources
  import opened Inductors
  import opened Circuits
  import LinearSolver

  /** `dcAnalysis` sets delta_t to 1e12 before it assembles. */
  const DcDeltaT: real := 1000000000000.0

  /** The assembler: (delta_t, ordinal of the assembly) to the system it yields. */
  type Assembler = (real, nat) -> MnaSystem

  /** What the solver returns for a system, when its rows are wide enough to be read. */
  function Solution(solve: LinearSolver.Solver, sys: MnaSystem): Vector {
    if LinearSolver.CallerRowsWide(sys.a) then solve(sys.a, sys.rhs) else []
  }

  /**
   * What a driver needs of a system it solves: rows the solver can read, and,
   * when there are voltage sources or inductors, a solution long enough for the
   * unchecked reads sol[n + i] of their currents.
   */
  predicate Readable(solve: LinearSolver.Solver, sys: MnaSystem, n: nat, branches: nat) {
    LinearSolver.CallerRowsWide(sys.a) &&
    (branches > 0 ==> n + branches <= |solve(sys.a, sys.rhs)|)
  }

  /** A transient step solves only when its matrix is not empty. */
  predicate StepReadable(solve: LinearSolver.Solver, sys: MnaSystem, n: nat, branches: nat) {
    sys.a == [] || Readable(solve, sys, n, branches)
  }

  /**
   * Every transient step a run up to tStop may assemble can be read: step
   * s + 1 is assembled after the point at time s tStep was recorded.
   */
  ghost predicate StepsReadable(assemble: Assembler, solve: LinearSolver.Solver, tStep: real, tStop: real, n: nat, branches: nat) {
    forall s: nat {:trigger Within(tStep, tStop, s)} | Within(tStep, tStop, s) ::
      StepReadable(solve, assemble(tStep, s + 1), n, branches)
  }

  /** The solver returns what `gaussianElimination` returns for sys, wherever it may be called on it. */
  ghost predicate GaussianOn(solve: LinearSolver.Solver, sys: MnaSystem) {
    LinearSolver.CallerRowsWide(sys.a) ==> solve(sys.a, sys.rhs) == LinearSolver.Solve(sys.a, sys.rhs)
  }

  /** The solver is `gaussianElimination` on every transient step a run up to tStop may assemble. */
  ghost predicate StepsGaussian(assemble: Assembler, solve: LinearSolver.Solver, tStep: real, tStop: real) {
    forall s: nat {:trigger Within(tStep, tStop, s)} | Within(tStep, tStop, s) ::
      GaussianOn(solve, assemble(tStep, s + 1))
  }

  /** Transient step s assembles an empty matrix, which ends the run. */
  predicate EmptyStep(assemble: Assembler, tStep: real, s: nat) {
    assemble(tStep, s).a == []
  }

  /** `dcAnalysis` solves only if there is a non-ground node, a voltage source or an inductor. */
  predicate DcSolves(n: nat, sources: nat, inductors: nat) {
    n > 0 || sources > 0 || inductors > 0
  }

  /**
   * The voltage `result_from_vec` leaves at position i of the non-ground list:
   * the solved value, or the old one when the solution is shorter than the list.
   */
  function Carry(v: real, x: Vector, n: nat, i: nat): real
    requires i < n
  {
    if |x| < n then v else x[i]
  }

  /** The `nonGroundNodes` loop both drivers run: the non-ground nodes in list order. */
  method CollectNonGround(ns: seq<Node>) returns (r: seq<Node>)
    ensures r == NonGround(ns)
  {
    r := [];
    for k := 0 to |ns|
      invariant r == NonGround(ns[..k])
    {
      assert ns[..k + 1][..k] == ns[..k];
      if !ns[k].isGround {
        r := r + [ns[k]];
      }
    }
    assert ns[..|ns|] == ns;
  }

  /**
   * `result_from_vec`: a solution shorter than the list changes nothing (the
   * source reports a size mismatch); otherwise node i is set to sol[i] through
   * `setVoltage`, which keeps 0 on a ground node.
   */
  method ResultFromVec(sol: Vector, nonGround: seq<Node>)
    requires Distinct(nonGround)
    modifies nonGround`voltage
    ensures |sol| < |nonGround| ==>
      forall i | 0 <= i < |nonGround| :: nonGround[i].voltage == old(nonGround[i].voltage)
    ensures |sol| >= |nonGround| ==>
      forall i | 0 <= i < |nonGround| :: nonGround[i].voltage == (if nonGround[i].isGround then 0.0 else sol[i])
  {
    if |sol| < |nonGround| {
      return;
    }
    for i := 0 to |nonGround|
      invariant forall j | 0 <= j < i :: nonGround[j].voltage == (if nonGround[j].isGround then 0.0 else sol[j])
    {
      nonGround[i].SetVoltage(sol[i]);
    }
  }

  /**
   * The currents a stored solution gives: voltage source j holds sol[n + j] and
   * inductor j holds sol[n + |sources| + j], all of them within sol.
   */
  ghost predicate CurrentsFrom(sources: seq<VoltageSource>, inductors: seq<Inductor>, n: nat, sol: Vector)
    reads sources`current, inductors`current
  {
    (|sources| + |inductors| > 0 ==> n + |sources| + |inductors| <= |sol|) &&
    (forall j | 0 <= j < |sources| :: sources[j].current == sol[n + j]) &&
    (forall j | 0 <= j < |inductors| :: inductors[j].current == sol[n + |sources| + j])
  }

  /** `set_MNA_A(); set_MNA_RHS();`: the circuit stores what the assembler yields for the delta_t in force. */
  method Assemble(c: Circuit, assemble: Assembler, ordinal: nat)
    modifies c`mnaA, c`mnaRhs
    ensures c.mnaA == assemble(c.deltaT, ordinal).a && c.mnaRhs == assemble(c.deltaT, ordinal).rhs
  {
    var sys := assemble(c.deltaT, ordinal);
    c.mnaA := sys.a;
    c.mnaRhs := sys.rhs;
  }

  /**
   * What both drivers do with a solution: the node voltages go through
   * `result_from_vec`, then voltage source j gets sol[n + j] and inductor j gets
   * sol[n + |sources| + j], where n is the number of non-ground nodes.
   */
  method StoreSolution(c: Circuit, sol: Vector, nonGround: seq<Node>)
    requires Distinct(nonGround) && Distinct(c.voltageSources) && Distinct(c.inductors)
    requires |c.voltageSources| + |c.inductors| > 0 ==>
      |nonGround| + |c.voltageSources| + |c.inductors| <= |sol|
    modifies nonGround`voltage, c.voltageSources`current, c.inductors`current
    ensures |sol| < |nonGround| ==>
      forall i | 0 <= i < |nonGround| :: nonGround[i].voltage == old(nonGround[i].voltage)
    ensures |sol| >= |nonGround| ==>
      forall i | 0 <= i < |nonGround| :: nonGround[i].voltage == (if nonGround[i].isGround then 0.0 else sol[i])
    ensures forall j | 0 <= j < |c.voltageSources| :: c.voltageSources[j].current == sol[|nonGround| + j]
    ensures forall j | 0 <= j < |c.inductors| ::
      c.inductors[j].current == sol[|nonGround| + |c.voltageSources| + j]
  {
    ResultFromVec(sol, nonGround);
    var n := |nonGround|;
    var sources := c.voltageSources;
    for i := 0 to |sources|
      invariant forall j | 0 <= j < i :: sources[j].current == sol[n + j]
      modifies sources`current
    {
      sources[i].SetCurrent(sol[n + i]);
    }
    var inductors := c.inductors;
    for i := 0 to |inductors|
      invariant forall j | 0 <= j < i :: inductors[j].current == sol[n + |sources| + j]
      modifies inductors`current
    {
      inductors[i].SetInductorCurrent(sol[n + |sources| + i]);
    }
  }

  /**
   * The block both drivers run once the system is assembled: solve it, then
   * store the solution (voltages through `result_from_vec`, then currents).
   */
  method SolveAndStore(c: Circuit, nonGround: seq<Node>, ghost sys: MnaSystem, ghost solve: LinearSolver.Solver) returns (ghost sol: Vector)
    requires GaussianOn(solve, sys)
    requires c.mnaA == sys.a && c.mnaRhs == sys.rhs
    requires Distinct(nonGround) && Distinct(c.voltageSources) && Distinct(c.inductors)
    requires forall i | 0 <= i < |nonGround| :: !nonGround[i].isGround
    requires Readable(solve, sys, |nonGround|, |c.voltageSources| + |c.inductors|)
    modifies nonGround`voltage, c.voltageSources`current, c.inductors`current
    ensures sol == Solution(solve, sys)
    ensures sol != [] ==> LinearSolver.Solves(sys.a, sys.rhs, sol)
    ensures forall i | 0 <= i < |nonGround| ::
      nonGround[i].voltage == Carry(old(nonGround[i].voltage), sol, |nonGround|, i)
    ensures CurrentsFrom(c.voltageSources, c.inductors, |nonGround|, sol)
  {
    var x := LinearSolver.GaussianElimination(c.mnaA, c.mnaRhs);
    LinearSolver.SolveMeaning(c.mnaA, c.mnaRhs);
    StoreSolution(c, x, nonGround);
    sol := x;
  }

  /**
   * `dcAnalysis`: delta_t := 1e12; when there is something to solve for, the
   * system is assembled and solved, the non-ground nodes take their voltages
   * through `result_from_vec` and the sources and inductors their currents.
   * Ground nodes keep their voltage, and with nothing to solve for nothing but
   * delta_t changes.
   */
  method DcAnalysis(c: Circuit, assemble: Assembler, ghost solve: LinearSolver.Solver) returns (ghost nonGround: seq<Node>, ghost sol: Vector)
    requires LinearSolver.IsGaussian(solve)
    requires Increasing(c.nodes) && Distinct(c.voltageSources) && Distinct(c.inductors)
    requires DcSolves(|NonGround(c.nodes)|, |c.voltageSources|, |c.inductors|) ==>
      Readable(solve, assemble(DcDeltaT, 0), |NonGround(c.nodes)|, |c.voltageSources| + |c.inductors|)
    modifies c`deltaT, c`mnaA, c`mnaRhs, c.nodes`voltage, c.voltageSources`current, c.inductors`current
    ensures c.deltaT == DcDeltaT
    ensures nonGround == old(NonGround(c.nodes)) && Distinct(nonGround)
    ensures forall i | 0 <= i < |nonGround| :: nonGround[i] in c.nodes && !nonGround[i].isGround
    ensures DcSolves(|nonGround|, |c.voltageSources|, |c.inductors|) ==>
      c.mnaA == assemble(DcDeltaT, 0).a && c.mnaRhs == assemble(DcDeltaT, 0).rhs &&
      sol == Solution(solve, assemble(DcDeltaT, 0))
    ensures !DcSolves(|nonGround|, |c.voltageSources|, |c.inductors|) ==>
      c.mnaA == old(c.mnaA) && c.mnaRhs == old(c.mnaRhs) && sol == []
    ensures sol != [] ==> LinearSolver.Solves(c.mnaA, c.mnaRhs, sol)
    ensures forall i | 0 <= i < |nonGround| ::
      nonGround[i].voltage == Carry(old(nonGround[i].voltage), sol, |nonGround|, i)
    ensures CurrentsFrom(c.voltageSources, c.inductors, |nonGround|, sol)
    ensures forall k | 0 <= k < |c.nodes| && c.nodes[k].isGround :: c.nodes[k].voltage == old(c.nodes[k].voltage)
  {
    var ng := CollectNonGround(c.nodes);
    nonGround := ng;
    NonGroundIncreasing(c.nodes);
    sol := DcSolve(c, assemble, solve, ng, assemble(DcDeltaT, 0));
  }

  /**
   * The part of `dcAnalysis` besides the collection of the non-ground nodes:
   * delta_t := 1e12 (the collection reads no delta_t, so it may come first),
   * then, only when there is something to solve for, assemble, solve and store
   * the solution. Ground nodes keep their voltage.
   */
  method DcSolve(c: Circuit, assemble: Assembler, ghost solve: LinearSolver.Solver, nonGround: seq<Node>, ghost sys: MnaSystem) returns (ghost sol: Vector)
    requires LinearSolver.IsGaussian(solve)
    requires sys == assemble(DcDeltaT, 0)
    requires nonGround == NonGround(c.nodes)
    requires Distinct(nonGround) && Distinct(c.voltageSources) && Distinct(c.inductors)
    requires DcSolves(|nonGround|, |c.voltageSources|, |c.inductors|) ==>
      Readable(solve, sys, |nonGround|, |c.voltageSources| + |c.inductors|)
    modifies c`deltaT, c`mnaA, c`mnaRhs, nonGround`voltage, c.voltageSources`current, c.inductors`current
    ensures c.deltaT == DcDeltaT
    ensures forall i | 0 <= i < |nonGround| :: nonGround[i] in c.nodes && !nonGround[i].isGround
    ensures forall k | 0 <= k < |c.nodes| && c.nodes[k].isGround :: c.nodes[k].voltage == old(c.nodes[k].voltage)
    ensures DcSolves(|nonGround|, |c.voltageSources|, |c.inductors|) ==>
      c.mnaA == sys.a && c.mnaRhs == sys.rhs && sol == Solution(solve, sys)
    ensures !DcSolves(|nonGround|, |c.voltageSources|, |c.inductors|) ==>
      c.mnaA == old(c.mnaA) && c.mnaRhs == old(c.mnaRhs) && sol == []
    ensures sol != [] ==> LinearSolver.Solves(sys.a, sys.rhs, sol)
    ensures forall i | 0 <= i < |nonGround| ::
      nonGround[i].voltage == Carry(old(nonGround[i].voltage), sol, |nonGround|, i)
    ensures CurrentsFrom(c.voltageSources, c.inductors, |nonGround|, sol)
  {
    label entry:
    c.SetDeltaT(DcDeltaT);
    sol := [];
    if DcSolves(|nonGround|, |c.voltageSources|, |c.inductors|) {
      Assemble(c, assemble, 0);
      sol := SolveAndStore(c, nonGround, sys, solve);
    }
    assert unchanged@entry(c`nodes) && unchanged@entry(c.nodes`isGround);
  }

  /** The number of time points 0, tStep, 2 tStep, ... that do not pass tStop. */
  function TimePoints(tStep: real, tStop: real): nat
    requires tStep > 0.0
  {
    if tStop < 0.0 then 0 else (tStop / tStep).Floor + 1
  }

  /** TimePoints counts exactly the multiples s tStep with s tStep <= tStop. */
  lemma TimePointsExact(tStep: real, tStop: real, s: nat)
    requires tStep > 0.0
    ensures s < TimePoints(tStep, tStop) <==> TimeOf(tStep, s) <= tStop
  {
    TimeOfMultiple(tStep, s);
    if tStop >= 0.0 {
      var q := tStop / tStep;
      FloorBound(q, s);
      ScaleOrder(s as real, q, tStep);
      DivideBack(tStop, tStep);
    } else {
      ScaleOrder(0.0, s as real, tStep);
    }
  }

  /** A natural number is at most the floor of q exactly when it is at most q. */
  lemma FloorBound(q: real, s: nat)
    ensures s < q.Floor + 1 <==> s as real <= q
  {
    assert (q.Floor as real) <= q < (q.Floor as real) + 1.0;
  }

  /** Dividing by a positive t and multiplying back gives x again. */
  lemma DivideBack(x: real, t: real)
    requires t > 0.0
    ensures (x / t) * t == x
  {
  }

  /** Scaling by a positive factor keeps the order. */
  lemma ScaleOrder(x: real, y: real, t: real)
    requires t > 0.0
    ensures x <= y <==> x * t <= y * t
  {
    if x <= y {
      assert (y - x) * t >= 0.0;
    } else {
      assert (x - y) * t > 0.0;
    }
  }

  /**
   * The s-th time point of a transient run, accumulated as the source's loop
   * does it (`t += t_step`, from 0).
   */
  function TimeOf(tStep: real, s: nat): real {
    if s == 0 then 0.0 else TimeOf(tStep, s - 1) + tStep
  }

  /** With exact arithmetic the accumulated time is the multiple s tStep. */
  lemma {:induction false} TimeOfMultiple(tStep: real, s: nat)
    ensures TimeOf(tStep, s) == s as real * tStep
  {
    if s > 0 {
      TimeOfMultiple(tStep, s - 1);
      assert s as real * tStep == (s - 1) as real * tStep + tStep;
    }
  }

  /** The solutions a transient run stores: the DC one (s = 0), then that of step s. */
  function RunSolutions(dcSol: Vector, assemble: Assembler, solve: LinearSolver.Solver, tStep: real): nat -> Vector {
    (s: nat) => if s == 0 then dcSol else Solution(solve, assemble(tStep, s))
  }

  /**
   * sols are the solutions of a transient run: dcSol first, then for s >= 1
   * what the solver yields for assembly s with delta_t = tStep.
   */
  ghost predicate SolutionsOf(sols: nat -> Vector, dcSol: Vector, assemble: Assembler, solve: LinearSolver.Solver, tStep: real) {
    sols(0) == dcSol &&
    forall s: nat {:trigger Solution(solve, assemble(tStep, s))} | s >= 1 :: sols(s) == Solution(solve, assemble(tStep, s))
  }

  /** `RunSolutions` lists the solutions of the run. */
  lemma RunSolutionsOf(dcSol: Vector, assemble: Assembler, solve: LinearSolver.Solver, tStep: real)
    ensures SolutionsOf(RunSolutions(dcSol, assemble, solve, tStep), dcSol, assemble, solve, tStep)
  {
    var sols := RunSolutions(dcSol, assemble, solve, tStep);
    forall s: nat | s >= 1 ensures sols(s) == Solution(solve, assemble(tStep, s)) {
    }
  }

  /** The voltage of the i-th non-ground node after solutions 0..s are stored, from v0. */
  function VoltageAt(v0: real, sols: nat -> Vector, n: nat, i: nat, s: nat): real
    requires i < n
  {
    var before := if s == 0 then v0 else VoltageAt(v0, sols, n, i, s - 1);
    Carry(before, sols(s), n, i)
  }

  /** Entry p of x (a read past the end does not happen under the drivers' preconditions). */
  function Entry(x: Vector, p: nat): real {
    if p < |x| then x[p] else 0.0
  }

  /** A node's history h0 followed by the points recorded for the i-th non-ground node in m iterations. */
  function NodeHistory(h0: seq<Point>, v0: real, tStep: real, sols: nat -> Vector, n: nat, i: nat, m: nat): (r: seq<Point>)
    requires i < n
    ensures |r| == |h0| + m
  {
    if m == 0 then h0
    else NodeHistory(h0, v0, tStep, sols, n, i, m - 1) + [(TimeOf(tStep, m - 1), VoltageAt(v0, sols, n, i, m - 1))]
  }

  /** A source's history h0 followed by the points recorded in m iterations for the current at entry p. */
  function SourceHistory(h0: seq<Point>, tStep: real, sols: nat -> Vector, p: nat, m: nat): (r: seq<Point>)
    ensures |r| == |h0| + m
  {
    if m == 0 then h0
    else SourceHistory(h0, tStep, sols, p, m - 1) + [(TimeOf(tStep, m - 1), Entry(sols(m - 1), p))]
  }

  /** The `StatesUpdated` events of m solved steps. */
  function Updates(m: nat): (r: seq<Event>)
    ensures |r| == m && forall k | 0 <= k < m :: r[k] == StatesUpdated
  {
    if m == 0 then [] else Updates(m - 1) + [StatesUpdated]
  }

  /**
   * A recorded node history keeps what was there before, and its s-th new
   * point is taken at s tStep and holds the voltage after solutions 0..s.
   */
  lemma {:induction false} NodeHistoryAt(h0: seq<Point>, v0: real, tStep: real, sols: nat -> Vector, n: nat, i: nat, m: nat)
    requires i < n
    ensures var r := NodeHistory(h0, v0, tStep, sols, n, i, m);
      r[..|h0|] == h0 &&
      forall s | 0 <= s < m :: r[|h0| + s] == (TimeOf(tStep, s), VoltageAt(v0, sols, n, i, s))
    decreases m
  {
    if m > 0 {
      NodeHistoryAt(h0, v0, tStep, sols, n, i, m - 1);
      var r0 := NodeHistory(h0, v0, tStep, sols, n, i, m - 1);
      var r := NodeHistory(h0, v0, tStep, sols, n, i, m);
      assert r[..|h0|] == r0[..|h0|];
      forall k | |h0| <= k < |h0| + m - 1 ensures r[k] == r0[k] { }
    }
  }

  /**
   * A recorded source history keeps what was there before, and its s-th new
   * point is taken at s tStep and holds entry p of solution s.
   */
  lemma {:induction false} SourceHistoryAt(h0: seq<Point>, tStep: real, sols: nat -> Vector, p: nat, m: nat)
    ensures var r := SourceHistory(h0, tStep, sols, p, m);
      r[..|h0|] == h0 &&
      forall s | 0 <= s < m :: r[|h0| + s] == (TimeOf(tStep, s), Entry(sols(s), p))
    decreases m
  {
    if m > 0 {
      SourceHistoryAt(h0, tStep, sols, p, m - 1);
      var r0 := SourceHistory(h0, tStep, sols, p, m - 1);
      var r := SourceHistory(h0, tStep, sols, p, m);
      assert r[..|h0|] == r0[..|h0|];
      forall k | |h0| <= k < |h0| + m - 1 ensures r[k] == r0[k] { }
    }
  }

  /** The t = 0 point a transient run adds to a node's history is the DC operating point. */
  lemma FirstPointIsDc(h0: seq<Point>, v0: real, tStep: real, sols: nat -> Vector, n: nat, i: nat, m: nat)
    requires i < n && m > 0
    ensures NodeHistory(h0, v0, tStep, sols, n, i, m)[|h0|] == (0.0, Carry(v0, sols(0), n, i))
  {
    NodeHistoryAt(h0, v0, tStep, sols, n, i, m);
    assert NodeHistory(h0, v0, tStep, sols, n, i, m)[|h0| + 0] == (TimeOf(tStep, 0), VoltageAt(v0, sols, n, i, 0));
  }

  /**
   * Every later point shows the solution of the step before it, or repeats the
   * previous point when that solution was shorter than the node list.
   */
  lemma LaterPointFollowsStep(h0: seq<Point>, v0: real, tStep: real, sols: nat -> Vector, n: nat, i: nat, m: nat, s: nat)
    requires i < n && 0 < s < m
    ensures var r, x := NodeHistory(h0, v0, tStep, sols, n, i, m), sols(s);
      r[|h0| + s].0 == TimeOf(tStep, s) &&
      r[|h0| + s].1 == (if |x| < n then r[|h0| + s - 1].1 else x[i])
  {
    NodeHistoryAt(h0, v0, tStep, sols, n, i, m);
    var r := NodeHistory(h0, v0, tStep, sols, n, i, m);
    assert r[|h0| + (s - 1)] == (TimeOf(tStep, s - 1), VoltageAt(v0, sols, n, i, s - 1));
  }

  /** One more StatesUpdated after m of them makes m + 1. */
  lemma UpdatesExtend(e0: seq<Event>, m: nat)
    ensures e0 + Updates(m) + [StatesUpdated] == e0 + Updates(m + 1)
  {
  }

  /** Steps 1..m found no empty matrix, nor did step m + 1: steps 1..m + 1 found none. */
  lemma NoEmptyStepExtends(assemble: Assembler, tStep: real, m: nat)
    requires forall s | 1 <= s <= m :: !EmptyStep(assemble, tStep, s)
    requires !EmptyStep(assemble, tStep, m + 1)
    ensures forall s | 1 <= s <= m + 1 :: !EmptyStep(assemble, tStep, s)
  {
  }

  /** Time point s of a run with step tStep does not pass tStop. */
  predicate Within(tStep: real, tStop: real, s: nat) {
    TimeOf(tStep, s) <= tStop
  }

  /** TimePoints is the number of time points that do not pass tStop. */
  lemma TimePointsCount(tStep: real, tStop: real)
    requires tStep > 0.0
    ensures forall s: nat {:trigger Within(tStep, tStop, s)} :: s < TimePoints(tStep, tStop) <==> Within(tStep, tStop, s)
  {
    forall s: nat ensures s < TimePoints(tStep, tStop) <==> Within(tStep, tStop, s) {
      TimePointsExact(tStep, tStop, s);
    }
  }

  /** Some count bounds the time points that do not pass tStop: TimePoints. */
  lemma WithinCount(tStep: real, tStop: real) returns (count: nat)
    requires tStep > 0.0
    ensures forall s: nat {:trigger Within(tStep, tStop, s)} :: s < count <==> Within(tStep, tStop, s)
  {
    count := TimePoints(tStep, tStop);
    TimePointsCount(tStep, tStop);
  }

  /**
   * A run that recorded the points 0..records - 1, all within tStop, and
   * stopped because the next one passes tStop recorded TimePoints of them.
   */
  lemma RecordsAreTimePoints(tStep: real, tStop: real, records: nat)
    requires tStep > 0.0
    requires forall s: nat | s < records :: Within(tStep, tStop, s)
    requires !Within(tStep, tStop, records)
    ensures records == TimePoints(tStep, tStop)
  {
    TimePointsCount(tStep, tStop);
    // The point TimePoints itself is the first one past tStop.
    assert !Within(tStep, tStop, TimePoints(tStep, tStop));
  }

  /** Every point of a transient timeline is taken at a time that does not pass tStop. */
  lemma PointsWithinStop(tStep: real, tStop: real, m: nat, s: nat)
    requires tStep > 0.0 && m <= TimePoints(tStep, tStop) && s < m
    ensures TimeOf(tStep, s) <= tStop
  {
    TimePointsExact(tStep, tStop, s);
  }

  /**
   * The head of each transient iteration: every non-ground node appends
   * (t, voltage) to its history and every voltage source (t, current).
   */
  method RecordStep(c: Circuit, t: real, nonGround: seq<Node>)
    requires Distinct(c.nodes) && Distinct(c.voltageSources)
    requires forall i | 0 <= i < |nonGround| :: nonGround[i] in c.nodes && !nonGround[i].isGround
    requires forall k | 0 <= k < |c.nodes| && !c.nodes[k].isGround :: c.nodes[k] in nonGround
    modifies nonGround`voltageHistory, c.voltageSources`currentHistory
    ensures forall k | 0 <= k < |c.nodes| ::
      c.nodes[k].voltageHistory ==
        old(c.nodes[k].voltageHistory) + (if c.nodes[k].isGround then [] else [(t, c.nodes[k].voltage)])
    ensures forall i | 0 <= i < |nonGround| ::
      nonGround[i].voltageHistory == old(nonGround[i].voltageHistory) + [(t, nonGround[i].voltage)]
    ensures forall j | 0 <= j < |c.voltageSources| ::
      c.voltageSources[j].currentHistory == old(c.voltageSources[j].currentHistory) + [(t, c.voltageSources[j].current)]
  {
    var nodes := c.nodes;
    for k := 0 to |nodes|
      invariant forall m | 0 <= m < k ::
        nodes[m].voltageHistory == old(nodes[m].voltageHistory) + (if nodes[m].isGround then [] else [(t, nodes[m].voltage)])
      invariant forall m | k <= m < |nodes| :: nodes[m].voltageHistory == old(nodes[m].voltageHistory)
      modifies nonGround`voltageHistory
    {
      var node := nodes[k];
      if !node.isGround {
        node.AddVoltageHistoryPoint(t, node.GetVoltage());
      }
    }
    var sources := c.voltageSources;
    for j := 0 to |sources|
      invariant forall m | 0 <= m < j ::
        sources[m].currentHistory == old(sources[m].currentHistory) + [(t, sources[m].current)]
      invariant forall m | j <= m < |sources| :: sources[m].currentHistory == old(sources[m].currentHistory)
      modifies sources`currentHistory
    {
      var vs := sources[j];
      vs.AddCurrentHistoryPoint(t, vs.GetCurrent());
    }
  }

  /** The voltages of a list of nodes. */
  function Voltages(ns: seq<Node>): (r: seq<real>)
    reads ns
    ensures |r| == |ns| && forall i | 0 <= i < |ns| :: r[i] == ns[i].voltage
  {
    seq(|ns|, i requires 0 <= i < |ns| reads ns => ns[i].voltage)
  }

  /** n empty histories. */
  function NoHistories(n: nat): (r: seq<seq<Point>>)
    ensures |r| == n && forall i | 0 <= i < n :: r[i] == []
  {
    seq(n, i => [])
  }

  /** The nodes' voltage histories are h, one per node. */
  ghost predicate NodeHistoriesAre(ns: seq<Node>, h: seq<seq<Point>>)
    reads ns`voltageHistory
  {
    |h| == |ns| && forall i | 0 <= i < |ns| :: ns[i].voltageHistory == h[i]
  }

  /** The sources' current histories are hs, one per source. */
  ghost predicate SourceHistoriesAre(vs: seq<VoltageSource>, hs: seq<seq<Point>>)
    reads vs`currentHistory
  {
    |hs| == |vs| && forall j | 0 <= j < |vs| :: vs[j].currentHistory == hs[j]
  }


  /**
   * The histories after m recorded time points: node i of the non-ground list
   * has h0[i] followed by `NodeHistory`'s m points (starting from voltage v0[i]),
   * and voltage source j has hs0[j] followed by the currents at entry n + j.
   */
  ghost predicate HistoriesAt(nonGround: seq<Node>, sources: seq<VoltageSource>, h0: seq<seq<Point>>, hs0: seq<seq<Point>>,
                              v0: seq<real>, tStep: real, sols: nat -> Vector, m: nat)
    reads nonGround`voltageHistory, sources`currentHistory
  {
    |h0| == |v0| == |nonGround| && |hs0| == |sources| &&
    (forall i {:trigger h0[i]} | 0 <= i < |nonGround| ::
      nonGround[i].voltageHistory == NodeHistory(h0[i], v0[i], tStep, sols, |nonGround|, i, m)) &&
    (forall j {:trigger hs0[j]} | 0 <= j < |sources| ::
      sources[j].currentHistory == SourceHistory(hs0[j], tStep, sols, |nonGround| + j, m))
  }

  /**
   * The state after solutions 0..s are stored over voltages v0: the node
   * voltages `VoltageAt`, and the source and inductor currents read from sols(s).
   */
  ghost predicate StateAt(nonGround: seq<Node>, sources: seq<VoltageSource>, inductors: seq<Inductor>,
                          v0: seq<real>, sols: nat -> Vector, s: nat)
    reads nonGround`voltage, sources`current, inductors`current
  {
    |v0| == |nonGround| &&
    (forall i {:trigger nonGround[i].voltage} | 0 <= i < |nonGround| :: nonGround[i].voltage == VoltageAt(v0[i], sols, |nonGround|, i, s)) &&
    (forall j {:trigger sources[j].current} | 0 <= j < |sources| :: sources[j].current == Entry(sols(s), |nonGround| + j)) &&
    (forall j {:trigger inductors[j].current} | 0 <= j < |inductors| :: inductors[j].current == Entry(sols(s), |nonGround| + |sources| + j))
  }

  /**
   * The rest of a transient iteration after the recording: assemble, and
   * unless the matrix is empty solve, store the solution and update the states.
   */
  method SolveStep(c: Circuit, assemble: Assembler, ghost solve: LinearSolver.Solver, ordinal: nat, nonGround: seq<Node>, ghost sys: MnaSystem)
    returns (stopped: bool, ghost sol: Vector)
    requires GaussianOn(solve, sys)
    requires sys == assemble(c.deltaT, ordinal)
    requires Distinct(nonGround) && Distinct(c.voltageSources) && Distinct(c.inductors)
    requires forall i | 0 <= i < |nonGround| :: !nonGround[i].isGround
    requires StepReadable(solve, sys, |nonGround|, |c.voltageSources| + |c.inductors|)
    modifies c`mnaA, c`mnaRhs, c`events, nonGround`voltage, c.voltageSources`current, c.inductors`current
    modifies c.capacitors`prevVoltage, c.inductors`prevCurrent
    ensures stopped <==> sys.a == []
    ensures c.mnaA == sys.a && c.mnaRhs == sys.rhs
    ensures stopped ==> c.events == old(c.events)
    ensures stopped ==> forall i | 0 <= i < |nonGround| :: nonGround[i].voltage == old(nonGround[i].voltage)
    ensures stopped ==> forall j | 0 <= j < |c.voltageSources| :: c.voltageSources[j].current == old(c.voltageSources[j].current)
    ensures stopped ==> forall j | 0 <= j < |c.inductors| :: c.inductors[j].current == old(c.inductors[j].current)
    ensures !stopped ==> c.events == old(c.events) + [StatesUpdated] && sol == Solution(solve, sys)
    ensures !stopped ==> forall i | 0 <= i < |nonGround| ::
      nonGround[i].voltage == Carry(old(nonGround[i].voltage), sol, |nonGround|, i)
    ensures !stopped ==> forall j | 0 <= j < |c.voltageSources| ::
      c.voltageSources[j].current == Entry(sol, |nonGround| + j)
    ensures !stopped ==> forall j | 0 <= j < |c.inductors| ::
      c.inductors[j].current == Entry(sol, |nonGround| + |c.voltageSources| + j)
    ensures stopped ==> forall k | 0 <= k < |c.capacitors| :: c.capacitors[k].prevVoltage == old(c.capacitors[k].prevVoltage)
    ensures stopped ==> forall k | 0 <= k < |c.inductors| :: c.inductors[k].prevCurrent == old(c.inductors[k].prevCurrent)
    ensures !stopped ==> forall k | 0 <= k < |c.capacitors| ::
      c.capacitors[k].prevVoltage == UpdatedVoltage(c.capacitors[k], old(c.capacitors[k].prevVoltage))
    ensures !stopped ==> forall k | 0 <= k < |c.inductors| ::
      c.inductors[k].prevCurrent == UpdatedCurrent(c.inductors[k], old(c.inductors[k].prevCurrent))
    ensures old(ComponentsSettled(c.capacitors, c.inductors)) || !stopped ==> ComponentsSettled(c.capacitors, c.inductors)
  {
    Assemble(c, assemble, ordinal);
    stopped := c.mnaA == [];
    sol := [];
    if !stopped {
      sol := SolveAndUpdate(c, nonGround, sys, solve);
    }
  }

  /** A step with a non-empty matrix: solve and store, then update the component states. */
  method SolveAndUpdate(c: Circuit, nonGround: seq<Node>, ghost sys: MnaSystem, ghost solve: LinearSolver.Solver) returns (ghost sol: Vector)
    requires GaussianOn(solve, sys)
    requires c.mnaA == sys.a && c.mnaRhs == sys.rhs
    requires Distinct(nonGround) && Distinct(c.voltageSources) && Distinct(c.inductors)
    requires forall i | 0 <= i < |nonGround| :: !nonGround[i].isGround
    requires Readable(solve, sys, |nonGround|, |c.voltageSources| + |c.inductors|)
    modifies c`events, nonGround`voltage, c.voltageSources`current, c.inductors`current
    modifies c.capacitors`prevVoltage, c.inductors`prevCurrent
    ensures c.events == old(c.events) + [StatesUpdated] && sol == Solution(solve, sys)
    ensures forall i | 0 <= i < |nonGround| ::
      nonGround[i].voltage == Carry(old(nonGround[i].voltage), sol, |nonGround|, i)
    ensures CurrentsFrom(c.voltageSources, c.inductors, |nonGround|, sol)
    ensures forall k | 0 <= k < |c.capacitors| ::
      c.capacitors[k].prevVoltage == UpdatedVoltage(c.capacitors[k], old(c.capacitors[k].prevVoltage))
    ensures forall k | 0 <= k < |c.inductors| ::
      c.inductors[k].prevCurrent == UpdatedCurrent(c.inductors[k], old(c.inductors[k].prevCurrent))
    ensures ComponentsSettled(c.capacitors, c.inductors)
  {
    sol := SolveAndStore(c, nonGround, sys, solve);
    c.UpdateComponentStates();
  }

  /** The recording of transient iteration s (at time s tStep) adds point s to every history. */
  method RecordIteration(c: Circuit, t: real, nonGround: seq<Node>, ghost h0: seq<seq<Point>>, ghost hs0: seq<seq<Point>>,
                         ghost v0: seq<real>, ghost tStep: real, ghost sols: nat -> Vector, ghost s: nat)
    requires Distinct(c.nodes) && Distinct(c.voltageSources)
    requires forall i | 0 <= i < |nonGround| :: nonGround[i] in c.nodes && !nonGround[i].isGround
    requires forall k | 0 <= k < |c.nodes| && !c.nodes[k].isGround :: c.nodes[k] in nonGround
    requires t == TimeOf(tStep, s)
    requires HistoriesAt(nonGround, c.voltageSources, h0, hs0, v0, tStep, sols, s)
    requires StateAt(nonGround, c.voltageSources, c.inductors, v0, sols, s)
    modifies nonGround`voltageHistory, c.voltageSources`currentHistory
    ensures HistoriesAt(nonGround, c.voltageSources, h0, hs0, v0, tStep, sols, s + 1)
    ensures StateAt(nonGround, c.voltageSources, c.inductors, v0, sols, s)
    ensures old(ComponentsSettled(c.capacitors, c.inductors)) ==> ComponentsSettled(c.capacitors, c.inductors)
  {
    RecordStep(c, t, nonGround);
  }

  /**
   * The solve of transient iteration s: assembly s + 1 with delta_t = tStep;
   * unless its matrix is empty, the state moves from solution s to s + 1.
   */
  method AdvanceIteration(c: Circuit, assemble: Assembler, ghost solve: LinearSolver.Solver, tStep: real, nonGround: seq<Node>,
                          ghost h0: seq<seq<Point>>, ghost hs0: seq<seq<Point>>, ghost v0: seq<real>,
                          ghost sols: nat -> Vector, ghost dcSol: Vector, s: nat, ghost tStop: real)
    returns (stopped: bool)
    requires StepsGaussian(assemble, solve, tStep, tStop)
    requires c.deltaT == tStep
    requires Distinct(nonGround) && Distinct(c.voltageSources) && Distinct(c.inductors)
    requires forall i | 0 <= i < |nonGround| :: !nonGround[i].isGround
    requires Within(tStep, tStop, s) && StepsReadable(assemble, solve, tStep, tStop, |nonGround|, |c.voltageSources| + |c.inductors|)
    requires SolutionsOf(sols, dcSol, assemble, solve, tStep)
    requires StateAt(nonGround, c.voltageSources, c.inductors, v0, sols, s)
    requires HistoriesAt(nonGround, c.voltageSources, h0, hs0, v0, tStep, sols, s + 1)
    modifies c`mnaA, c`mnaRhs, c`events, nonGround`voltage, c.voltageSources`current, c.inductors`current
    modifies c.capacitors`prevVoltage, c.inductors`prevCurrent
    ensures HistoriesAt(nonGround, c.voltageSources, h0, hs0, v0, tStep, sols, s + 1)
    ensures stopped <==> EmptyStep(assemble, tStep, s + 1)
    ensures c.events == old(c.events) + (if stopped then [] else [StatesUpdated])
    ensures StateAt(nonGround, c.voltageSources, c.inductors, v0, sols, if stopped then s else s + 1)
    ensures stopped ==> forall k | 0 <= k < |c.capacitors| :: c.capacitors[k].prevVoltage == old(c.capacitors[k].prevVoltage)
    ensures stopped ==> forall k | 0 <= k < |c.inductors| :: c.inductors[k].prevCurrent == old(c.inductors[k].prevCurrent)
    ensures !stopped ==> forall k | 0 <= k < |c.capacitors| ::
      c.capacitors[k].prevVoltage == UpdatedVoltage(c.capacitors[k], old(c.capacitors[k].prevVoltage))
    ensures !stopped ==> forall k | 0 <= k < |c.inductors| ::
      c.inductors[k].prevCurrent == UpdatedCurrent(c.inductors[k], old(c.inductors[k].prevCurrent))
    ensures old(ComponentsSettled(c.capacitors, c.inductors)) || !stopped ==> ComponentsSettled(c.capacitors, c.inductors)
  {
    ghost var sys := assemble(tStep, s + 1);
    assert StepReadable(solve, sys, |nonGround|, |c.voltageSources| + |c.inductors|) && GaussianOn(solve, sys);
    ghost var sol;
    stopped, sol := SolveStep(c, assemble, solve, s + 1, nonGround, sys);
    if !stopped {
      assert sols(s + 1) == Solution(solve, sys);
    }
  }

  /**
   * How a transient run up to tStop ends after recording `records` time points
   * and solving `solved` steps: every recorded point is within tStop, and the
   * loop left either because the next point passes tStop (solved == records)
   * or because step `records` assembled an empty matrix (solved + 1 == records);
   * no solved step was empty.
   */
  ghost predicate Stops(assemble: Assembler, tStep: real, tStop: real, records: nat, solved: nat) {
    (forall s: nat | s < records :: Within(tStep, tStop, s)) &&
    (solved == records || solved + 1 == records) &&
    (solved == records ==> !Within(tStep, tStop, records)) &&
    (solved + 1 == records ==> EmptyStep(assemble, tStep, records)) &&
    (forall s | 1 <= s <= solved :: !EmptyStep(assemble, tStep, s))
  }

  /**
   * The lists a transient run works on: no node, source or inductor listed
   * twice, and nonGround holding exactly the circuit's non-ground nodes.
   */
  ghost predicate Wired(c: Circuit, nonGround: seq<Node>)
    reads c`nodes, c`voltageSources, c`inductors, c.nodes`isGround, nonGround`isGround
  {
    Distinct(c.nodes) && Distinct(nonGround) && Distinct(c.voltageSources) && Distinct(c.inductors) &&
    (forall i | 0 <= i < |nonGround| :: nonGround[i] in c.nodes && !nonGround[i].isGround) &&
    (forall k | 0 <= k < |c.nodes| && !c.nodes[k].isGround :: c.nodes[k] in nonGround)
  }
  /** The non-ground nodes of a circuit with increasing node numbers are wired to it. */
  lemma NonGroundWired(c: Circuit)
    requires Increasing(c.nodes) && Distinct(c.voltageSources) && Distinct(c.inductors)
    ensures Wired(c, NonGround(c.nodes))
  {
    NonGroundIncreasing(c.nodes);
  }


  /** Transient iteration s: record at time s tStep, then solve step s + 1. */
  method Iteration(c: Circuit, assemble: Assembler, ghost solve: LinearSolver.Solver, tStep: real, t: real, nonGround: seq<Node>,
                   ghost h0: seq<seq<Point>>, ghost hs0: seq<seq<Point>>, ghost v0: seq<real>,
                   ghost sols: nat -> Vector, ghost dcSol: Vector, s: nat, ghost tStop: real)
    returns (stopped: bool)
    requires StepsGaussian(assemble, solve, tStep, tStop)
    requires c.deltaT == tStep && t == TimeOf(tStep, s)
    requires Wired(c, nonGround)
    requires Within(tStep, tStop, s) && StepsReadable(assemble, solve, tStep, tStop, |nonGround|, |c.voltageSources| + |c.inductors|)
    requires SolutionsOf(sols, dcSol, assemble, solve, tStep)
    requires HistoriesAt(nonGround, c.voltageSources, h0, hs0, v0, tStep, sols, s) == true
    requires StateAt(nonGround, c.voltageSources, c.inductors, v0, sols, s) == true
    modifies c`mnaA, c`mnaRhs, c`events, nonGround`voltageHistory, nonGround`voltage
    modifies c.voltageSources`current, c.voltageSources`currentHistory, c.inductors`current
    modifies c.capacitors`prevVoltage, c.inductors`prevCurrent
    ensures stopped <==> EmptyStep(assemble, tStep, s + 1)
    ensures c.events == old(c.events) + (if stopped then [] else [StatesUpdated])
    ensures HistoriesAt(nonGround, c.voltageSources, h0, hs0, v0, tStep, sols, s + 1) == true
    ensures StateAt(nonGround, c.voltageSources, c.inductors, v0, sols, if stopped then s else s + 1) == true
    ensures stopped ==> forall k | 0 <= k < |c.capacitors| :: c.capacitors[k].prevVoltage == old(c.capacitors[k].prevVoltage)
    ensures stopped ==> forall k | 0 <= k < |c.inductors| :: c.inductors[k].prevCurrent == old(c.inductors[k].prevCurrent)
    ensures !stopped ==> forall k | 0 <= k < |c.capacitors| ::
      c.capacitors[k].prevVoltage == UpdatedVoltage(c.capacitors[k], old(c.capacitors[k].prevVoltage))
    ensures !stopped ==> forall k | 0 <= k < |c.inductors| ::
      c.inductors[k].prevCurrent == UpdatedCurrent(c.inductors[k], old(c.inductors[k].prevCurrent))
  {
    RecordIteration(c, t, nonGround, h0, hs0, v0, tStep, sols, s);
    stopped := AdvanceIteration(c, assemble, solve, tStep, nonGround, h0, hs0, v0, sols, dcSol, s, tStop);
  }

  /**
   * The transient loop: t = 0, tStep, 2 tStep, ... while t <= tStop, record,
   * then assemble and solve, leaving at the first empty matrix. The histories
   * start from h0 and hs0, and the DC solution dcSol was stored over the node
   * voltages v0.
   *
   * `records` counts the recorded time points and `solved` the completed steps;
   * they differ by one exactly when the loop stopped at an empty matrix.
   *
   * The history and state facts are written `== true` here and in `Iteration`
   * so that the verifier keeps each as one fact instead of splitting it into
   * its conjuncts at every call.
   */
  method TransientLoop(c: Circuit, assemble: Assembler, ghost solve: LinearSolver.Solver, tStep: real, tStop: real, nonGround: seq<Node>,
                       ghost h0: seq<seq<Point>>, ghost hs0: seq<seq<Point>>, ghost v0: seq<real>,
                       ghost sols: nat -> Vector, ghost dcSol: Vector, ghost count: nat)
    returns (ghost records: nat, ghost solved: nat)
    requires StepsGaussian(assemble, solve, tStep, tStop)
    requires tStep > 0.0 && c.deltaT == tStep
    requires forall s: nat {:trigger Within(tStep, tStop, s)} :: s < count <==> Within(tStep, tStop, s)
    requires Wired(c, nonGround)
    requires StepsReadable(assemble, solve, tStep, tStop, |nonGround|, |c.voltageSources| + |c.inductors|)
    requires SolutionsOf(sols, dcSol, assemble, solve, tStep)
    requires HistoriesAt(nonGround, c.voltageSources, h0, hs0, v0, tStep, sols, 0) == true
    requires StateAt(nonGround, c.voltageSources, c.inductors, v0, sols, 0) == true
    modifies c`mnaA, c`mnaRhs, c`events, nonGround`voltageHistory, nonGround`voltage
    modifies c.voltageSources`current, c.voltageSources`currentHistory, c.inductors`current
    modifies c.capacitors`prevVoltage, c.inductors`prevCurrent
    ensures Stops(assemble, tStep, tStop, records, solved)
    ensures c.events == old(c.events) + Updates(solved)
    ensures HistoriesAt(nonGround, c.voltageSources, h0, hs0, v0, tStep, sols, records) == true
    ensures StateAt(nonGround, c.voltageSources, c.inductors, v0, sols, solved) == true
  {
    ghost var sources, inductors := c.voltageSources, c.inductors;
    var t := 0.0;
    var step: nat := 0;
    records, solved := 0, 0;
    while t <= tStop
      invariant step == solved && records == solved && t == TimeOf(tStep, solved)
      invariant c.voltageSources == sources && c.inductors == inductors
      invariant records <= count
      invariant c.events == old(c.events) + Updates(solved)
      invariant forall s | 1 <= s <= solved :: !EmptyStep(assemble, tStep, s)
      invariant HistoriesAt(nonGround, sources, h0, hs0, v0, tStep, sols, records) == true
      invariant StateAt(nonGround, sources, inductors, v0, sols, solved) == true
      decreases count - records
    {
      assert Within(tStep, tStop, records);
      var stopped := Iteration(c, assemble, solve, tStep, t, nonGround, h0, hs0, v0, sols, dcSol, step, tStop);
      records := records + 1;
      if stopped {
        assert HistoriesAt(nonGround, sources, h0, hs0, v0, tStep, sols, records) == true;
        break;
      }
      NoEmptyStepExtends(assemble, tStep, solved);
      UpdatesExtend(old(c.events), solved);
      t := t + tStep;
      step := step + 1;
      solved := solved + 1;
    }
    assert solved == records ==> !Within(tStep, tStop, records);
  }

  /** Once every history is cleared, the non-ground nodes and the sources have none. */
  lemma ClearedNonGround(c: Circuit)
    requires c.HistoriesCleared()
    ensures NodeHistoriesAre(NonGround(c.nodes), NoHistories(|NonGround(c.nodes)|))
    ensures SourceHistoriesAre(c.voltageSources, NoHistories(|c.voltageSources|))
  {
    var nonGround := NonGround(c.nodes);
    forall i | 0 <= i < |nonGround|
      ensures nonGround[i].voltageHistory == []
    {
      var k :| 0 <= k < |c.nodes| && c.nodes[k] == nonGround[i];
    }
  }

  /** The last two steps before the loop: update the component states, then delta_t := tStep. */
  method FinishSetup(c: Circuit, tStep: real)
    modifies c`deltaT, c`events, c.capacitors`prevVoltage, c.inductors`prevCurrent
    ensures c.deltaT == tStep && c.events == old(c.events) + [StatesUpdated]
    ensures ComponentsSettled(c.capacitors, c.inductors)
  {
    c.UpdateComponentStates();
    c.SetDeltaT(tStep);
  }

  /**
   * What `transientAnalysis` does between clearing the histories and its
   * loop: run DC, update the component states and set delta_t := tStep. No
   * history is touched.
   */
  method TransientSetup(c: Circuit, assemble: Assembler, ghost solve: LinearSolver.Solver, tStep: real, nonGround: seq<Node>) returns (ghost dcSol: Vector)
    requires LinearSolver.IsGaussian(solve)
    requires Increasing(c.nodes) && Distinct(c.voltageSources) && Distinct(c.inductors)
    requires nonGround == NonGround(c.nodes)
    requires DcSolves(|nonGround|, |c.voltageSources|, |c.inductors|) ==>
      Readable(solve, assemble(DcDeltaT, 0), |nonGround|, |c.voltageSources| + |c.inductors|)
    modifies c`deltaT, c`mnaA, c`mnaRhs, c`events, c.nodes`voltage, c.voltageSources`current, c.inductors`current
    modifies c.capacitors`prevVoltage, c.inductors`prevCurrent
    ensures dcSol == if DcSolves(|nonGround|, |c.voltageSources|, |c.inductors|) then Solution(solve, assemble(DcDeltaT, 0)) else []
    ensures c.deltaT == tStep
    ensures c.events == old(c.events) + [StatesUpdated]
    ensures forall i | 0 <= i < |nonGround| ::
      nonGround[i].voltage == Carry(old(nonGround[i].voltage), dcSol, |nonGround|, i)
    ensures CurrentsFrom(c.voltageSources, c.inductors, |nonGround|, dcSol)
    ensures ComponentsSettled(c.capacitors, c.inductors)
  {
    ghost var dcNodes;
    dcNodes, dcSol := DcAnalysis(c, assemble, solve);
    FinishSetup(c, tStep);
  }

  /** Before the loop the histories are h0 and hs0 with no point added. */
  lemma HistoriesStart(nonGround: seq<Node>, sources: seq<VoltageSource>, h0: seq<seq<Point>>, hs0: seq<seq<Point>>,
                       v0: seq<real>, tStep: real, sols: nat -> Vector)
    requires |h0| == |v0| == |nonGround| && |hs0| == |sources|
    requires forall i | 0 <= i < |nonGround| :: nonGround[i].voltageHistory == h0[i]
    requires forall j | 0 <= j < |sources| :: sources[j].currentHistory == hs0[j]
    ensures HistoriesAt(nonGround, sources, h0, hs0, v0, tStep, sols, 0)
  {
  }

  /** After the DC solve the state is that of solution 0 of the run. */
  lemma StateStart(nonGround: seq<Node>, sources: seq<VoltageSource>, inductors: seq<Inductor>,
                   v0: seq<real>, sols: nat -> Vector, dcSol: Vector)
    requires |v0| == |nonGround| && sols(0) == dcSol
    requires forall i | 0 <= i < |nonGround| :: nonGround[i].voltage == Carry(v0[i], dcSol, |nonGround|, i)
    requires CurrentsFrom(sources, inductors, |nonGround|, dcSol)
    ensures StateAt(nonGround, sources, inductors, v0, sols, 0)
  {
  }

  /**
   * `transientAnalysis` after `clearComponentHistory` and up to its loop:
   * collect the non-ground nodes (v0 are their voltages on entry), then the
   * setup. No history is touched.
   */
  method TransientPrepare(c: Circuit, assemble: Assembler, ghost solve: LinearSolver.Solver, tStep: real)
    returns (nonGround: seq<Node>, ghost dcSol: Vector, ghost v0: seq<real>)
    requires LinearSolver.IsGaussian(solve)
    requires Increasing(c.nodes) && Distinct(c.voltageSources) && Distinct(c.inductors)
    requires DcSolves(|NonGround(c.nodes)|, |c.voltageSources|, |c.inductors|) ==>
      Readable(solve, assemble(DcDeltaT, 0), |NonGround(c.nodes)|, |c.voltageSources| + |c.inductors|)
    requires NodeHistoriesAre(NonGround(c.nodes), NoHistories(|NonGround(c.nodes)|))
    requires SourceHistoriesAre(c.voltageSources, NoHistories(|c.voltageSources|))
    modifies c`deltaT, c`mnaA, c`mnaRhs, c`events, c.nodes`voltage, c.voltageSources`current, c.inductors`current
    modifies c.capacitors`prevVoltage, c.inductors`prevCurrent
    ensures nonGround == old(NonGround(c.nodes))
    ensures v0 == old(Voltages(nonGround))
    ensures dcSol == if DcSolves(|nonGround|, |c.voltageSources|, |c.inductors|) then Solution(solve, assemble(DcDeltaT, 0)) else []
    ensures c.deltaT == tStep
    ensures c.events == old(c.events) + [StatesUpdated]
    ensures Wired(c, nonGround)
    ensures NodeHistoriesAre(nonGround, NoHistories(|nonGround|))
    ensures SourceHistoriesAre(c.voltageSources, NoHistories(|c.voltageSources|))
    ensures forall i | 0 <= i < |nonGround| :: nonGround[i].voltage == Carry(v0[i], dcSol, |nonGround|, i)
    ensures CurrentsFrom(c.voltageSources, c.inductors, |nonGround|, dcSol)
    ensures ComponentsSettled(c.capacitors, c.inductors)
  {
    // Collecting first is the same as in the source: the setup writes no ground flag.
    nonGround := CollectNonGround(c.nodes);
    NonGroundWired(c);
    v0 := Voltages(nonGround);
    dcSol := TransientSetup(c, assemble, solve, tStep, nonGround);
  }

  /**
   * The part of `transientAnalysis` after its setup: the histories are h0 and
   * hs0, and the DC solution dcSol was stored over the node voltages v0.
   */
  method TransientRun(c: Circuit, assemble: Assembler, ghost solve: LinearSolver.Solver, tStep: real, tStop: real, nonGround: seq<Node>,
                      ghost h0: seq<seq<Point>>, ghost hs0: seq<seq<Point>>, ghost v0: seq<real>, ghost dcSol: Vector)
    returns (ghost sols: nat -> Vector, ghost records: nat, ghost solved: nat)
    requires LinearSolver.IsGaussian(solve)
    requires tStep > 0.0 && c.deltaT == tStep
    requires Wired(c, nonGround)
    requires StepsReadable(assemble, solve, tStep, tStop, |nonGround|, |c.voltageSources| + |c.inductors|)
    requires |h0| == |v0| == |nonGround| && |hs0| == |c.voltageSources|
    requires NodeHistoriesAre(nonGround, h0) && SourceHistoriesAre(c.voltageSources, hs0)
    requires forall i | 0 <= i < |nonGround| :: nonGround[i].voltage == Carry(v0[i], dcSol, |nonGround|, i)
    requires CurrentsFrom(c.voltageSources, c.inductors, |nonGround|, dcSol)
    modifies c`mnaA, c`mnaRhs, c`events, nonGround`voltageHistory, nonGround`voltage
    modifies c.voltageSources`current, c.voltageSources`currentHistory, c.inductors`current
    modifies c.capacitors`prevVoltage, c.inductors`prevCurrent
    ensures SolutionsOf(sols, dcSol, assemble, solve, tStep)
    ensures Stops(assemble, tStep, tStop, records, solved)
    ensures c.events == old(c.events) + Updates(solved)
    ensures HistoriesAt(nonGround, c.voltageSources, h0, hs0, v0, tStep, sols, records)
    ensures StateAt(nonGround, c.voltageSources, c.inductors, v0, sols, solved)
    ensures forall k | 0 <= k < |c.nodes| && c.nodes[k].isGround ::
      c.nodes[k].voltageHistory == old(c.nodes[k].voltageHistory) && c.nodes[k].voltage == old(c.nodes[k].voltage)
  {
    sols := RunSolutions(dcSol, assemble, solve, tStep);
    RunSolutionsOf(dcSol, assemble, solve, tStep);
    HistoriesStart(nonGround, c.voltageSources, h0, hs0, v0, tStep, sols);
    StateStart(nonGround, c.voltageSources, c.inductors, v0, sols, dcSol);
    ghost var count := WithinCount(tStep, tStop);
    records, solved := TransientLoop(c, assemble, solve, tStep, tStop, nonGround, h0, hs0, v0, sols, dcSol, count);
  }

  /**
   * `transientAnalysis`: clear the history, run DC, update the component
   * states, set delta_t := tStep, then run the loop. With sols the solutions of
   * the run (`SolutionsOf`), the histories end as `HistoriesAt` describes (see
   * `NodeHistoryAt`) and the state as `StateAt` describes after the last solve.
   */
  method TransientAnalysis(c: Circuit, assemble: Assembler, ghost solve: LinearSolver.Solver, tStep: real, tStop: real)
    returns (ghost nonGround: seq<Node>, ghost dcSol: Vector, ghost sols: nat -> Vector, ghost records: nat, ghost solved: nat)
    requires LinearSolver.IsGaussian(solve)
    requires tStep > 0.0
    requires Increasing(c.nodes) && Distinct(c.voltageSources) && Distinct(c.inductors)
    requires DcSolves(|NonGround(c.nodes)|, |c.voltageSources|, |c.inductors|) ==>
      Readable(solve, assemble(DcDeltaT, 0), |NonGround(c.nodes)|, |c.voltageSources| + |c.inductors|)
    requires StepsReadable(assemble, solve, tStep, tStop, |NonGround(c.nodes)|, |c.voltageSources| + |c.inductors|)
    modifies c`deltaT, c`mnaA, c`mnaRhs, c`events
    modifies c.nodes`voltage, c.nodes`voltageHistory, c.voltageSources`current, c.voltageSources`currentHistory
    modifies c.nodes`dcSweepHistory, c.nodes`acSweepHistory, c.nodes`phaseSweepHistory, c.voltageSources`dcSweepCurrentHistory
    modifies c.inductors`current, c.capacitors`prevVoltage, c.inductors`prevCurrent
    ensures nonGround == old(NonGround(c.nodes))
    ensures dcSol == if DcSolves(|nonGround|, |c.voltageSources|, |c.inductors|) then Solution(solve, assemble(DcDeltaT, 0)) else []
    ensures SolutionsOf(sols, dcSol, assemble, solve, tStep)
    ensures c.deltaT == tStep
    ensures Stops(assemble, tStep, tStop, records, solved)
    ensures c.events == old(c.events) + [HistoryCleared] + [StatesUpdated] + Updates(solved)
    ensures HistoriesAt(nonGround, c.voltageSources, NoHistories(|nonGround|), NoHistories(|c.voltageSources|),
                        old(Voltages(nonGround)), tStep, sols, records)
    ensures StateAt(nonGround, c.voltageSources, c.inductors, old(Voltages(nonGround)), sols, solved)
  {
    ghost var ng, v0 := NonGround(c.nodes), Voltages(NonGround(c.nodes));
    c.ClearComponentHistory();
    assert NonGround(c.nodes) == ng && Voltages(ng) == v0;
    ClearedNonGround(c);
    ghost var h0, hs0, v0';
    nonGround, dcSol, h0, hs0, v0', sols, records, solved :=
      TransientFromCleared(c, assemble, solve, tStep, tStop, old(c.nodes), old(c.voltageSources), old(c.inductors));
  }

  /**
   * `transientAnalysis` after `clearComponentHistory`: with every history
   * empty, the run records the histories `HistoriesAt` describes. The ghost
   * nodes, sources and inductors name the circuit's lists.
   */
  method TransientFromCleared(c: Circuit, assemble: Assembler, ghost solve: LinearSolver.Solver, tStep: real, tStop: real,
                              ghost nodes: seq<Node>, ghost sources: seq<VoltageSource>, ghost inductors: seq<Inductor>)
    returns (ghost nonGround: seq<Node>, ghost dcSol: Vector, ghost h0: seq<seq<Point>>, ghost hs0: seq<seq<Point>>, ghost v0: seq<real>, ghost sols: nat -> Vector, ghost records: nat, ghost solved: nat)
    requires LinearSolver.IsGaussian(solve)
    requires tStep > 0.0
    requires c.nodes == nodes && c.voltageSources == sources && c.inductors == inductors
    requires Increasing(nodes) && Distinct(sources) && Distinct(inductors)
    requires DcSolves(|NonGround(c.nodes)|, |c.voltageSources|, |c.inductors|) ==>
      Readable(solve, assemble(DcDeltaT, 0), |NonGround(c.nodes)|, |c.voltageSources| + |c.inductors|)
    requires StepsReadable(assemble, solve, tStep, tStop, |NonGround(c.nodes)|, |c.voltageSources| + |c.inductors|)
    requires NodeHistoriesAre(NonGround(c.nodes), NoHistories(|NonGround(c.nodes)|))
    requires SourceHistoriesAre(c.voltageSources, NoHistories(|c.voltageSources|))
    modifies c`deltaT, c`mnaA, c`mnaRhs, c`events
    modifies c.nodes`voltage, c.nodes`voltageHistory, c.voltageSources`current, c.voltageSources`currentHistory
    modifies c.inductors`current, c.capacitors`prevVoltage, c.inductors`prevCurrent
    ensures nonGround == old(NonGround(c.nodes)) && v0 == old(Voltages(nonGround))
    ensures h0 == NoHistories(|nonGround|) && hs0 == NoHistories(|c.voltageSources|)
    ensures dcSol == if DcSolves(|nonGround|, |c.voltageSources|, |c.inductors|) then Solution(solve, assemble(DcDeltaT, 0)) else []
    ensures SolutionsOf(sols, dcSol, assemble, solve, tStep)
    ensures c.deltaT == tStep
    ensures Stops(assemble, tStep, tStop, records, solved)
    ensures c.events == old(c.events) + [StatesUpdated] + Updates(solved)
    ensures HistoriesAt(nonGround, c.voltageSources, h0, hs0, v0, tStep, sols, records)
    ensures StateAt(nonGround, c.voltageSources, c.inductors, v0, sols, solved)
  {
    var ng;
    ng, dcSol, v0 := TransientPrepare(c, assemble, solve, tStep);
    nonGround := ng;
    h0, hs0 := NoHistories(|ng|), NoHistories(|c.voltageSources|);
    sols, records, solved := TransientRun(c, assemble, solve, tStep, tStop, ng, h0, hs0, v0, dcSol);
  }
}
