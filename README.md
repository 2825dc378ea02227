# A verified model of a DC and transient circuit solver

This project models the engine of a small C++ circuit simulator. The model is written in Dafny, and the properties below are proved about it:

- **The circuit's topology store.** Nodes, resistors, capacitors, inductors, diodes, voltage sources and current sources, kept in lists. The store offers first-match lookups by name or number and an `addNode` that only adds absent names.
- **The state records the analyses mutate.** A node stores its voltage, its ground flag and its histories. A capacitor keeps its previous voltage. An inductor and a voltage source keep their branch currents. A diode keeps its conduction state and its branch index.
- **The dense linear solver `gaussianElimination`.** It uses partial pivoting and a 1e-9 singularity tolerance. It returns the empty vector on failure.
- **The simplified DC analysis inside `main`.** It does the following, in order:
  1. marks the ground nodes;
  2. numbers the non-ground nodes;
  3. fills the MNA (modified nodal analysis) matrix A and right-hand side b, in four ordered stages: resistor conductances, then the `VIN` row, then current-source injection, then inductor shorts;
  4. solves;
  5. writes the voltages back.
- **The analysis drivers `dcAnalysis`, `transientAnalysis` and `result_from_vec`.** They solve the assembled system and copy the solution into node voltages, voltage-source currents and inductor currents. The transient driver records one history point per non-ground node and per voltage source at every time point.
- **The `handleErrors` validator.** It reports:
  - a missing ground;
  - non-positive component values;
  - missing terminals;
  - sources whose two terminals are one node.

**Modelling choices**

- **Numbers.** `double` is modelled as exact `real`. The 1e-9 tolerance is the real constant `LinearSolver.TOLERANCE`. The infinity `Resistor::getCurrent` returns for a zero resistance is the sentinel `Reading.Infinite`.
- **Classes and values.** Objects whose fields the source updates in place are Dafny classes: `Node`, `Capacitor`, `Inductor`, `Diode`, `VoltageSource` and `Circuit`. Their setters are methods with `modifies` clauses. Resistors and current sources are never updated, so they are datatypes.
- **Pointers.** A `Node*` terminal is a nullable `Node?` reference.
- **The node counter.** The process-wide counter `Node::nextNum` is an object of class `NodeNumbering`. Every node constructor bumps it.
- **The solver.** It keeps its imperative form: loops over local copies of A and b, proved equal to the specification functions `PivotScan`, `Forward`, `BackValues` and `Solve`.
- **The DC fill.** The loops inside `main` are lifted into methods (`DcFill`). Each method is proved equal to stage functions on values (`Mna`), and lemmas state each stage's effect cell by cell.
- **The assembler.** `set_MNA_A` is an empty stub at src/Circuit.cpp:61 (`Circuits.Circuit.SetMnaA`), and `set_MNA_RHS` has no body in the sources. As written, the stub leaves MNA_A as constructed, empty, so the transient loop leaves at its first iteration. The drivers take an `Assembler` instead, which generalises over the stub: a function from the delta_t in force and the ordinal of the assembly to a matrix and a right-hand side. The stub is the assembler that returns the empty system.
- **The solver in the drivers.** The drivers take a ghost `Solver` value bound by `LinearSolver.IsGaussian`. It returns exactly what `gaussianElimination` returns wherever the source may call it, and `LinearSolver.GaussianIsGaussian` shows that such a value exists. The drivers still call the real solver method, so nothing about the solve is assumed.
- **Steps without bodies.** `clearComponentHistory` and `updateComponentStates` have no bodies in the sources. Each is modelled by its evident body:
  - `clearComponentHistory` runs `clearHistory` on every node and every voltage source;
  - `updateComponentStates` runs `update` on every capacitor and every inductor.

  The model also records each call, in order, in a ghost event list on the circuit.

## Model

| member | source | states |
|---|---|---|
| Nodes.NodeNumbering.constructor | src/Node.cpp:5 | The node counter starts at 0. |
| Nodes.Node.constructor | src/Node.cpp:6 | A new node gets the counter's value as its number, and the counter goes up by one. So every later node gets a larger number. The name is empty, the voltage is 0, the node is not ground and its four histories are empty. The ground invariant `Valid` holds. |
| Nodes.Node.GetVoltage | src/Node.cpp:8-11 | A ground node reads 0 whatever is stored. Any other node reads its stored voltage. |
| Nodes.Node.SetVoltage | src/Node.cpp:13-19 | A ground node stores 0 and any other node stores v. The ground invariant is kept, and the name and ground flag are outside its frame. |
| Nodes.Node.SetGround | src/Node.cpp:21-26 | The flag becomes the argument. Grounding zeroes the voltage, and un-grounding keeps the stored voltage. Afterwards ground implies voltage 0. |
| Nodes.Node.AddVoltageHistoryPoint | src/Node.cpp:28-30 | Exactly one (time, voltage) pair is appended at the end, and earlier points are kept. |
| Nodes.Node.ClearHistory | src/Node.cpp:32-37 | All four histories become empty. Voltage and ground flag are outside its frame. |
| Nodes.Across | src/Resistor.cpp:12-15 | The shared `getVoltage` of resistor, capacitor and current source is non-negative. It is 0 when a terminal is missing, and otherwise ±(v1 - v2). |
| Nodes.AcrossSymmetric | src/Capacitor.cpp:9-12 | The reading is symmetric in the two terminals and is 0 for a terminal against itself. |
| Resistors.Resistor.GetCurrent | src/Resistor.cpp:6-10 | The result is infinite exactly when R = 0, a test made before the null test. It is 0 when a terminal is missing and R ≠ 0. It is non-negative for R > 0. With R ≠ 0 and both terminals present it is exactly Abs(v1 - v2) / R. |
| Resistors.Resistor.GetVoltage | src/Resistor.cpp:12-15 | The result is 0 when a terminal is missing, and otherwise exactly Abs(v1 - v2), so it is never negative. |
| Resistors.OhmsLaw | src/Resistor.cpp:6-15 | For R ≠ 0 with both terminals present, the current is finite and current × R = voltage. |
| Capacitors.Capacitor.constructor | include/Capacitor.h:10 | A new capacitor has previous voltage 0. |
| Capacitors.Capacitor.GetCurrent | src/Capacitor.cpp:5-7 | The current is always 0. |
| Capacitors.Capacitor.GetVoltage | src/Capacitor.cpp:9-12 | The result is 0 when a terminal is missing, and otherwise exactly Abs(v1 - v2), so it is never negative. |
| Capacitors.Capacitor.Update | src/Capacitor.cpp:14-17 | With both terminals present, prevVoltage becomes v1 - v2, keeping its sign, and its magnitude equals `GetVoltage()`. With a terminal missing nothing changes. dt is unused. |
| Inductors.Inductor.constructor | include/Inductor.h:11 | A new inductor has current and previous current 0. |
| Inductors.Inductor.GetCurrent | src/Inductor.cpp:7-9 | The result is the stored current. |
| Inductors.Inductor.GetVoltage | src/Inductor.cpp:11-14 | The voltage is always 0. |
| Inductors.Inductor.Update | src/Inductor.cpp:16-19 | The current is kept. With both terminals present, prevCurrent := current. With a terminal missing nothing changes. A second call changes nothing. |
| Inductors.Inductor.SetInductorCurrent | src/Inductor.cpp:21-23 | The getter then returns c, and prevCurrent is outside the frame. |
| Diodes.Diode.constructor | src/Diode.cpp:3-11 | Type, forward voltage and zener voltage are stored as given. The state starts OFF with branch index -1. |
| Diodes.Diode.GetDiodeType | src/Diode.cpp:13-15 | The result is the stored type. |
| Diodes.Diode.GetForwardVoltage | src/Diode.cpp:17-19 | The result is the stored forward voltage. |
| Diodes.Diode.GetZenerVoltage | src/Diode.cpp:21-23 | The result is the stored zener voltage. |
| Diodes.Diode.SetState | src/Diode.cpp:25-27 | `GetState` then returns the state set, and the branch index is kept. |
| Diodes.Diode.GetState | src/Diode.cpp:29-31 | The result is the stored state. |
| Diodes.Diode.SetBranchIndex | src/Diode.cpp:33-35 | `GetBranchIndex` then returns the index set, and the state is kept. |
| Diodes.Diode.GetBranchIndex | src/Diode.cpp:37-39 | The result is the stored index. |
| Diodes.Diode.AddStamp | src/Diode.cpp:41-44 | The in-out matrix and right-hand side come back unchanged. |
| VoltageSources.VoltageSource.constructor | include/VoltageSource.h:10 | A new source carries current 0 and has empty histories. |
| VoltageSources.VoltageSource.GetCurrent | src/VoltageSource.cpp:5-7 | The result is the stored current. |
| VoltageSources.VoltageSource.SetCurrent | src/VoltageSource.cpp:9-11 | The getter then returns c. Only `current` is in the frame, so value and histories are kept. |
| VoltageSources.VoltageSource.GetVoltage | src/VoltageSource.cpp:13-15 | The result is the source value with its sign, with no absolute value taken. |
| VoltageSources.VoltageSource.AddCurrentHistoryPoint | src/VoltageSource.cpp:17-19 | Exactly one (time, current) pair is appended at the end. |
| VoltageSources.VoltageSource.ClearHistory | src/VoltageSource.cpp:21-24 | Both current histories become empty, and the current is kept. |
| CurrentSources.CurrentSource.GetCurrent | src/CurrentSource.cpp:5-7 | The result is the source value, whatever the node voltages. |
| CurrentSources.CurrentSource.GetVoltage | src/CurrentSource.cpp:9-12 | The result is 0 when a terminal is missing, and otherwise exactly Abs(v1 - v2), so it is never negative. |
| Circuits.FirstWith | src/Circuit.cpp:19-52 | The linear scan of every `find*`: the index of the first element with the key, with no earlier match, or None exactly when no element matches. |
| Circuits.FirstNamed | src/Circuit.cpp:5-10 | The index of the first node carrying the name, or None exactly when no node carries it. |
| Circuits.Circuit.constructor | src/Circuit.cpp:3 | A new circuit has empty lists and an empty MNA system, and satisfies `Valid`. |
| Circuits.Circuit.FindNode | src/Circuit.cpp:5-10 | The result is the first node with that name, or null exactly when no node has it. main.cpp:267-274 is the same scan. |
| Circuits.Circuit.FindNodeByNum | src/Circuit.cpp:12-17 | The result is the first node with that number, or null exactly when no node has it. main.cpp:276-281 is the same scan. |
| Circuits.Circuit.FindResistor | src/Circuit.cpp:19-24 | The result is the position of the first resistor of that name, or None when there is none. |
| Circuits.Circuit.FindCapacitor | src/Circuit.cpp:26-31 | The result is the position of the first capacitor of that name, or None when there is none. |
| Circuits.Circuit.FindInductor | src/Circuit.cpp:33-38 | The result is the position of the first inductor of that name, or None when there is none. |
| Circuits.Circuit.FindDiode | src/Circuit.cpp:40-45 | The result is the position of the first diode of that name, or None when there is none. |
| Circuits.Circuit.FindCurrentSource | src/Circuit.cpp:47-52 | The result is the position of the first current source of that name, or None when there is none. |
| Circuits.Circuit.AddNode | src/Circuit.cpp:65-71 | A present name changes nothing, so the call is idempotent. An absent name appends exactly one fresh node, numbered from the counter, with voltage 0 and not ground, and earlier nodes are kept. Afterwards `findNode(name)` is not null. No other field changes, and `Valid` is kept: increasing numbers, attached terminals, no repeats. main.cpp:320-326 is the same. |
| Circuits.Circuit.AppendNode | src/Circuit.cpp:67-69 | The branch for an absent name: one fresh node is appended with the counter's number, and the name is then found. |
| Circuits.Circuit.PushNode | src/Circuit.cpp:69 | The `push_back` of a node numbered just below the counter and not yet listed appends exactly that node and keeps the circuit valid: increasing numbers, attached terminals, no repeats. |
| Circuits.Circuit.G | src/Circuit.cpp:54 | The stub returns an empty matrix. |
| Circuits.Circuit.B | src/Circuit.cpp:55 | The stub returns an empty matrix. |
| Circuits.Circuit.C | src/Circuit.cpp:56 | The stub returns an empty matrix. |
| Circuits.Circuit.D | src/Circuit.cpp:57 | The stub returns an empty matrix. |
| Circuits.Circuit.J | src/Circuit.cpp:58 | The stub returns an empty matrix. |
| Circuits.Circuit.E | src/Circuit.cpp:59 | The stub returns an empty matrix. |
| Circuits.Circuit.SetMnaA | src/Circuit.cpp:61 | The stub changes nothing. |
| Circuits.Circuit.SetMnaV | src/Circuit.cpp:62 | The stub changes nothing. |
| Circuits.Circuit.SetMnaX | src/Circuit.cpp:63 | The stub changes nothing. |
| Circuits.Circuit.SetDeltaT | src/Analysis.cpp:14 | delta_t becomes the argument, and nothing else changes. |
| Circuits.Circuit.ClearComponentHistory | src/Analysis.cpp:41 | Every node's four histories and every voltage source's two histories become empty (`HistoriesCleared`), as `Node::clearHistory` and `VoltageSource::clearHistory` leave them. The call is recorded after the earlier ones. Voltages, currents and component states are outside its frame. |
| Circuits.Circuit.UpdateComponentStates | src/Analysis.cpp:43 | Every capacitor's previous voltage and every inductor's previous current become what its `update` gives: the voltage across a connected capacitor, the current of a connected inductor, and the old value for an unconnected one. Afterwards every component is settled (`ComponentsSettled`), so a second call would change nothing. The call is recorded after the earlier ones. Voltages, currents and histories are outside its frame. |
| Circuits.NonGround | src/Analysis.cpp:15-20 | Every collected node is a non-ground node of the list, and every non-ground node is collected. |
| Circuits.NonGroundIncreasing | main.cpp:477-485 | With increasing node numbers, the non-ground list also has increasing numbers, so no node is listed twice. |
| Circuits.FindOwnNumber | main.cpp:582 | With increasing numbers, `findNodeByNum` on a node's own number finds that node. |
| Mna.ZeroMatrix | main.cpp:489 | The result is an n × n matrix of zeros. |
| Mna.ZeroVector | main.cpp:490 | The result is n zeros. |
| Mna.UnitRow | main.cpp:527-528 | A cleared row with 1 on the diagonal. |
| Mna.AddAt | main.cpp:503 | `A[i][j] += v`: exactly one cell changes, by v. |
| Mna.StampResistors | main.cpp:494-516 | The resistor loop keeps A n × n. |
| Mna.StampResistorCell | main.cpp:495-515 | One resistor adds exactly its conductance to every cell. The conductance is ±1/R on the cells of its non-ground terminals. A missing terminal or R = 0 adds nothing. One grounded terminal leaves only the other terminal's diagonal. |
| Mna.BetweenNodesCell | main.cpp:500-506 | The four updates of a resistor between two non-ground nodes: +g on both diagonals and -g on both off-diagonals, cell by cell. |
| Mna.StampResistorsSum | main.cpp:494-516 | After the loop every cell holds the sum of all resistors' conductances, whatever the list order. |
| Mna.ConductanceSumSymmetric | main.cpp:494-516 | The summed conductance of cell (i, j) equals that of cell (j, i). |
| Mna.ResistorStageSymmetric | main.cpp:494-516 | A is symmetric after the resistor stage. |
| Mna.StampVin | main.cpp:521-538 | The VIN stage keeps the system n × n. |
| Mna.StampVinEffect | main.cpp:521-538 | A VIN with exactly one grounded terminal turns the other terminal's row into a unit row, with b = +value if the positive terminal is the non-ground one and -value otherwise. All other rows are kept. A floating, doubly grounded or unconnected VIN changes nothing. |
| Mna.Inject | main.cpp:543-552 | One current source keeps b of length n. |
| Mna.InjectAll | main.cpp:542-553 | The current-source loop keeps b of length n. |
| Mna.InjectAllSum | main.cpp:542-553 | Every b entry gains the net current injected into that row: +value into node1's row, -value out of node2's row, nothing at ground. A is not an argument, so it is untouched. |
| Mna.Short | main.cpp:558-573 | One inductor keeps the system n × n. |
| Mna.ShortAll | main.cpp:557-574 | The inductor loop keeps the system n × n. |
| Mna.ShortAllRow | main.cpp:557-574 | After the loop, a row that some grounded inductor shorts is the unit row with b = 0. Every other row is untouched. |
| Mna.Fill | main.cpp:487-574 | The four stages in source order yield an n × n system. |
| Mna.FillRow | main.cpp:487-574 | The final system, row by row:<br>• A row shorted by an inductor is a unit row with b = 0.<br>• Otherwise, a row VIN fixes is a unit row with b = ±VIN plus the injected current. The injection lands on the replaced entry.<br>• Otherwise, the row is the conductance sums, with the injected current in b. |
| LinearSolver.PivotScan | src/LinearSolver.cpp:17-22 | The pivot row of column i is the earliest row k ≥ i of largest \|A[k][i]\|: every row is at most it, and every earlier row is strictly smaller. |
| LinearSolver.SwapRows | src/LinearSolver.cpp:23-24 | `std::swap` exchanges entries i and j and keeps the rest. |
| LinearSolver.Reduced | src/LinearSolver.cpp:34-36 | The reduced row keeps the row's length. |
| LinearSolver.EliminateStep | src/LinearSolver.cpp:32-38 | One elimination step keeps the system's shape. |
| LinearSolver.Forward | src/LinearSolver.cpp:16-39 | Forward elimination either gives up or returns a system of the same shape. |
| LinearSolver.BackValues | src/LinearSolver.cpp:41-52 | Back-substitution yields n values. |
| LinearSolver.Solve | src/LinearSolver.cpp:7-54 | The result is empty or has exactly n entries, never a truncated vector. |
| LinearSolver.FindPivot | src/LinearSolver.cpp:17-22 | The pivot loop computes `PivotScan`: the earliest row of largest magnitude, with ties kept on the lower index. |
| LinearSolver.SubtractScaledRow | src/LinearSolver.cpp:34-36 | The inner loop computes `Reduced`. |
| LinearSolver.EliminateBelow | src/LinearSolver.cpp:32-38 | The elimination loops compute `EliminateStep`. |
| LinearSolver.EliminateStepRow | src/LinearSolver.cpp:32-38 | Rows below the pivot lose factor × pivot row, with b updated alike. The pivot row and the rows above it are kept. |
| LinearSolver.BackSubstitute | src/LinearSolver.cpp:41-52 | The descending loop, with its own diagonal test, computes `BackSubst`. |
| LinearSolver.GaussianElimination | src/LinearSolver.cpp:7-54 | The method returns `Solve(A, b)`, and the caller's A and b are values, so they are unchanged. main.cpp:689-741 is the same code. |
| LinearSolver.SwapKeepsLowerZero | src/LinearSolver.cpp:23-24 | A swap with a later row keeps the zeros below the diagonal in the finished columns. |
| LinearSolver.EliminateStepLowerZero | src/LinearSolver.cpp:32-38 | Loop invariant: after step i every entry below the diagonal in columns 0..i is zero. |
| LinearSolver.EliminateStepSound | src/LinearSolver.cpp:32-38 | A solution of the system after a step solves the system before it. |
| LinearSolver.SwapSound | src/LinearSolver.cpp:23-24 | A solution of the row-swapped system solves the original system. |
| LinearSolver.ForwardUpper | src/LinearSolver.cpp:16-39 | Forward elimination leaves an upper-triangular system. |
| LinearSolver.ForwardSound | src/LinearSolver.cpp:16-39 | A solution of the eliminated system solves the original system. |
| LinearSolver.ForwardDiagonal | src/LinearSolver.cpp:26-29 | Rows before step i are never modified again. Every diagonal entry from row i on has magnitude ≥ 1e-9. |
| LinearSolver.BackCheckNeverFires | src/LinearSolver.cpp:43-46 | The back-substitution singularity test never fires on what forward elimination returns. |
| LinearSolver.BackValuesStable | src/LinearSolver.cpp:41-52 | An entry fixed by back-substitution is never changed by a later row. |
| LinearSolver.BackValuesSubstituted | src/LinearSolver.cpp:41-52 | The back-substituted vector meets every row's equation from the diagonal on. |
| LinearSolver.UpperSolved | src/LinearSolver.cpp:41-52 | On an upper-triangular system, meeting every row from the diagonal on means solving A·x = b. |
| LinearSolver.BackValuesSolve | src/LinearSolver.cpp:41-52 | Back-substitution solves an upper-triangular system with a non-zero diagonal. |
| LinearSolver.SolveSound | src/LinearSolver.cpp:7-54 | In exact arithmetic, a non-empty result x satisfies A·x = b. |
| LinearSolver.SolveEmptyIffSmallPivot | src/LinearSolver.cpp:26-29 | On a well-shaped system, the result is empty exactly when some chosen pivot is below 1e-9 in magnitude. |
| LinearSolver.SolveMeaning | src/LinearSolver.cpp:7-54 | The result is empty or n long. It is empty for an empty matrix, or when row 0's width or b's length is not n; only row 0 is checked. Otherwise it is empty exactly on a small pivot, and a non-empty result solves A·x = b. |
| LinearSolver.GaussianIsGaussian | src/LinearSolver.cpp:7-54 | `gaussianElimination`, taken as a solver value, meets `IsGaussian`. |
| LinearSolver.GaussianSolve | src/LinearSolver.cpp:7-54 | The solve the DC fill runs: it returns the solver's answer, which is empty or n long, and a non-empty answer solves A·x = b. |
| Analysis.CollectNonGround | src/Analysis.cpp:15-20 | The collection loop yields exactly `NonGround`: the non-ground nodes, in list order. |
| Analysis.ResultFromVec | src/Analysis.cpp:81-89 | A solution shorter than the list changes no voltage. Otherwise the i-th listed node gets sol[i], or 0 if it is ground. Only the listed nodes' voltages are in the frame. |
| Analysis.Assemble | src/Analysis.cpp:23-24 | The circuit stores the assembler's matrix and right-hand side for the delta_t in force. |
| Analysis.StoreSolution | src/Analysis.cpp:26-34 | The voltages are set as by `result_from_vec`. Voltage source j gets sol[N + j] and inductor j gets sol[N + \|VS\| + j]. These reads are unguarded, hence the length precondition. |
| Analysis.SolveAndStore | src/Analysis.cpp:25-34 | The solution stored is the solver's answer for the assembled system. A non-empty answer solves it. The voltages are carried through and the currents set from the answer. |
| Analysis.SolveAndUpdate | src/Analysis.cpp:67-77 | A non-empty step: the solution is stored as by `SolveAndStore`, then every capacitor's and inductor's previous value becomes what its `update` gives, leaving the components settled (`ComponentsSettled`). One states update is recorded. |
| Analysis.DcAnalysis | src/Analysis.cpp:12-37 | delta_t becomes 1e12 before assembly. The system is assembled and solved only if there is a non-ground node, a voltage source or an inductor; otherwise A, b and every voltage and current are kept. The non-ground nodes take the solution through `result_from_vec`, and sources and inductors their currents. Ground nodes keep their voltage. |
| Analysis.DcSolve | src/Analysis.cpp:14-35 | delta_t becomes 1e12; then assemble, solve and store exactly when `DcSolves` holds, and otherwise change nothing else. Ground nodes keep their voltage, and the listed nodes stay non-ground nodes of the circuit. |
| Analysis.TimePointsExact | src/Analysis.cpp:53 | `TimePoints` counts exactly the multiples s·t_step that do not pass t_stop. |
| Analysis.TimeOfMultiple | src/Analysis.cpp:53 | The accumulated `t += t_step` gives s·t_step at iteration s, in exact arithmetic. |
| Analysis.TimePointsCount | src/Analysis.cpp:53 | s is below `TimePoints` exactly when time point s is within t_stop. |
| Analysis.WithinCount | src/Analysis.cpp:53 | A bound exists on the time points within t_stop. |
| Analysis.RecordsAreTimePoints | src/Analysis.cpp:53 | A run that stopped because the next point passes t_stop recorded exactly `TimePoints` points. |
| Analysis.PointsWithinStop | src/Analysis.cpp:53 | Every recorded time point is at most t_stop. |
| Analysis.RunSolutionsOf | src/Analysis.cpp:67-68 | The run's solutions are the DC solution first, then the solver's answer for each transient assembly. |
| Analysis.NodeHistory | src/Analysis.cpp:54-57 | m iterations add exactly m points to a node's history. |
| Analysis.SourceHistory | src/Analysis.cpp:58-60 | m iterations add exactly m points to a source's history. |
| Analysis.Updates | src/Analysis.cpp:77 | One states update per solved step. |
| Analysis.NodeHistoryAt | src/Analysis.cpp:53-61 | The old history is kept. New point s is taken at time s·t_step and holds the voltage after solutions 0..s. |
| Analysis.SourceHistoryAt | src/Analysis.cpp:58-60 | The old history is kept. New point s is taken at time s·t_step and holds the current read from solution s. |
| Analysis.FirstPointIsDc | src/Analysis.cpp:53-61 | The t = 0 point is the DC operating point. |
| Analysis.LaterPointFollowsStep | src/Analysis.cpp:53-77 | Point s shows the solution of step s. When that solution is shorter than the node list, the point repeats the previous point's voltage. |
| Analysis.RecordStep | src/Analysis.cpp:54-61 | Each non-ground node appends exactly one (t, voltage) pair and each voltage source one (t, current) pair. Ground nodes' histories are unchanged. |
| Analysis.SolveStep | src/Analysis.cpp:63-77 | The step assembles. It stops exactly when the matrix is empty, changing no voltage, current or event. Otherwise it solves, stores voltages and currents from the answer, and records one states update. A stop leaves every capacitor's and inductor's previous value as it was. A solve updates each as its `update` gives and leaves the components settled (`ComponentsSettled`). |
| Analysis.RecordIteration | src/Analysis.cpp:54-61 | The recording of iteration s adds point s to every history. The voltages and currents are kept, and settled components stay settled. |
| Analysis.AdvanceIteration | src/Analysis.cpp:63-77 | The solve of iteration s stops exactly on an empty assembly s + 1. Otherwise the state moves from solution s to solution s + 1, and the histories are kept. A stop leaves the capacitor and inductor states as they were. An advance updates each as its `update` gives and leaves the components settled. |
| Analysis.NonGroundWired | src/Analysis.cpp:46-51 | The collected list holds exactly the circuit's non-ground nodes, without repeats. |
| Analysis.Iteration | src/Analysis.cpp:54-77 | One loop iteration records point s, then stops or advances the state to solution s + 1. On a stop every capacitor's and inductor's previous value is as it was. On an advance each is what its `update` gives. |
| Analysis.TransientLoop | src/Analysis.cpp:53-78 | The loop visits time points 0, t_step, 2·t_step, … while they are ≤ t_stop, and leaves at the first empty matrix (`Stops`). It records one point per iteration and one states update per solve, and the state is that of the last solve. |
| Analysis.ClearedNonGround | src/Analysis.cpp:41 | After the clearing step, every non-ground node and every voltage source has an empty history. |
| Analysis.FinishSetup | src/Analysis.cpp:43-44 | Update the component states, then delta_t := t_step, in that order. The components end settled (`ComponentsSettled`). |
| Analysis.TransientSetup | src/Analysis.cpp:42-44 | After the clearing: run DC, update the states, then delta_t := t_step. The DC solution is stored over the non-ground voltages, and the source and inductor currents come from it. The components end settled over the DC voltages. |
| Analysis.TransientPrepare | src/Analysis.cpp:42-51 | The setup, plus the list of non-ground nodes, wired to the circuit without repeats, and their voltages on entry. The empty histories it starts from are kept, and the components end settled. |
| Analysis.TransientFromCleared | src/Analysis.cpp:42-78 | Everything after the clearing: from empty histories, the run records exactly the points `HistoriesAt` describes, stops as `Stops` says and ends in the state of its last solve. |
| Analysis.TransientRun | src/Analysis.cpp:53-78 | The loop from the DC state: its solutions, stopping condition, histories and final state. Ground nodes keep their voltage and history. |
| Analysis.TransientAnalysis | src/Analysis.cpp:39-79 | The whole driver:<br>• The event order is clear, update, then one update per solved step.<br>• delta_t ends as t_step.<br>• The loop ends as `Stops` says.<br>• The histories are cleared first, so every non-ground node's and source's history ends as exactly the points `HistoriesAt` describes, with the t = 0 point the DC answer.<br>• The final state is that of the last solution. |
| DcFill.IndexMapSnoc | main.cpp:481 | Numbering one more node maps its number to the next index. |
| DcFill.NonGroundSnoc | main.cpp:478-485 | Scanning one more node appends it to the non-ground list unless it is ground. |
| DcFill.IndexMapInverse | main.cpp:477-485 | The number-to-index map and the index-to-number list are inverse: every key maps to an index holding that number, and every listed number is a key. With distinct numbers, each index maps back to itself. |
| DcFill.ResistorStamps | main.cpp:495-515 | One stamp per resistor, with every row index inside the system. |
| DcFill.SourceStamps | main.cpp:543-552 | One stamp per current source, with every row index inside the system. |
| DcFill.InductorStamps | main.cpp:558-573 | One stamp per inductor, with every row index inside the system. |
| DcFill.VinStamp | main.cpp:521-538 | VIN's row indices lie inside the system. |
| DcFill.FirstOfNameUnique | main.cpp:466 | The first node of a name is the only node of that name that `findNode` reaches. |
| DcFill.GroundFirstNamed | main.cpp:466-469 | One ground name grounds and zeroes the first node of that name, if any. Every other node keeps its state. |
| DcFill.MarkGroundNodes | main.cpp:464-470 | Each listed ground name grounds and zeroes the first node of that name. Every other node keeps its flag and voltage. |
| DcFill.IndexNodes | main.cpp:472-485 | The loop yields exactly `NonGround`, the number-to-index map `IndexMap`, and the list of the nodes' numbers. |
| DcFill.FillResistors | main.cpp:494-516 | The resistor loop computes `StampResistors` on the zero matrix. |
| DcFill.FillCurrentSources | main.cpp:542-553 | The current-source loop computes `InjectAll`. |
| DcFill.FillInductors | main.cpp:557-574 | The inductor loop computes `ShortAll`. |
| DcFill.FillSystem | main.cpp:487-574 | The four stages, in source order, compute `DcSystem`: resistors, VIN, current sources, inductors. |
| DcFill.StoreVoltage | main.cpp:582-583 | `findNodeByNum` on a node's own number finds that node, which stores the value. |
| DcFill.FixRow | main.cpp:527-534 | Clearing a row, putting 1 on its diagonal and setting b there gives the unit row with that b entry: the equation V_i = v. |
| DcFill.FillVin | main.cpp:521-538 | The VIN stage, done in place on (A, b), gives exactly `StampVin` of its stamp. |
| DcFill.FillStampsKept | main.cpp:487-574 | The filled system depends only on the component lists, VIN and the terminals' ground flags and numbers: a step that keeps those keeps every stamp, hence the system. |
| DcFill.SolveKeeping | main.cpp:577 | The solve returns the solver's answer and leaves the circuit's system unchanged. |
| DcFill.WriteBackKeeping | main.cpp:580-585 | The write-back as in `WriteBack`, and the circuit's system is unchanged by it. |
| DcFill.WriteBack | main.cpp:580-585 | Entry i goes to the i-th non-ground node, and ground nodes keep their voltage. |
| DcFill.NumberNodes | main.cpp:472-485 | Every non-ground node is numbered once, in list order, with indices 0..N-1, and the map is inside the system. |
| DcFill.NumberAndSolve | main.cpp:472-587 | With no non-ground node nothing is filled or solved. Otherwise (A, b) is exactly `DcSystem` of this circuit, with VIN and the numbering of its non-ground nodes, A is N × N, and x is the solver's answer: empty or N long, and if non-empty it solves A·x = b. The voltages are written only when x has N entries; otherwise no voltage changes. Ground nodes are never written. |
| DcFill.DcOperatingPoint | main.cpp:464-587 | Ground marking, then `NumberAndSolve`: the marked nodes become ground with voltage 0. (A, b) is `DcSystem` of the circuit as marked, so written voltages solve this circuit's system with this VIN. The rest is as for `NumberAndSolve`. |
| ErrorChecks.EachReports | main.cpp:776-807 | A line comes out of a component loop exactly when some component produces it. |
| ErrorChecks.CheckResistors | main.cpp:776-783 | The resistor loop writes `ResistorChecks` for every resistor, in list order. |
| ErrorChecks.CheckCapacitors | main.cpp:784-791 | The capacitor loop writes `CapacitorChecks` for every capacitor, in list order. |
| ErrorChecks.CheckInductors | main.cpp:792-799 | The inductor loop writes `InductorChecks` for every inductor, in list order. |
| ErrorChecks.CheckCurrentSources | main.cpp:803-807 | The current-source loop writes `CurrentSourceChecks` for every source, in list order. |
| ErrorChecks.HandleErrors | main.cpp:771-809 | The lines written to the error stream, in order, are `Report`: ground, resistors, capacitors, inductors, VIN, current sources. The banner printed to standard output first is not returned. |
| ErrorChecks.ComponentsNeverNoGround | main.cpp:776-807 | No component check writes the missing-ground line. |
| ErrorChecks.NoGroundReported | main.cpp:773-775 | The missing-ground line is written exactly when nodes exist but no ground name is given. It is then the first line, and it appears only once. |
| ErrorChecks.ResistanceReported | main.cpp:777-779 | A resistor is reported for its value exactly when one of that name has that value and the value is ≤ 0. |
| ErrorChecks.ResistorNullReported | main.cpp:780-782 | A resistor is reported for a missing terminal exactly when one of that name lacks one. |
| ErrorChecks.CapacitorReported | main.cpp:784-791 | A capacitor is reported exactly when one of that name has a value ≤ 0, or lacks a terminal. |
| ErrorChecks.InductorReported | main.cpp:792-799 | An inductor is reported exactly when one of that name has a value ≤ 0, or lacks a terminal. |
| ErrorChecks.CurrentSourceReported | main.cpp:803-807 | A current source is reported exactly when one of that name has both terminals on one node. |
| ErrorChecks.CleanCircuitSilent | main.cpp:771-809 | A circuit with a ground name whose components all pass their checks yields no line. |

## Left out

**Outside the core**
- The WPF user interface, the C interface layer (`CircuitSimulatorInterface`, `export.h`), stdin command handling, the `read` output phase and `src/main.cpp`. These are input and output around the engine.
- `ACVoltageSource` and the Shockley-equation `Diode::getCurrent` at main.cpp:191-203. Both rest on `sin` and `exp` in floating point.
- The signed `Resistor::getCurrent` of main.cpp:85-89. The model follows src/Resistor.cpp, which takes the absolute value.
- The `VIN` current estimate at main.cpp:589-614, and the print-only branches at main.cpp:616-623.
- The progress messages written to standard output: the banner of `handleErrors` (main.cpp:772) and the start and end lines of `dcAnalysis` and the start line of `transientAnalysis` (src/Analysis.cpp:13, 36, 40). They carry no data the model needs.
- The print-only stubs at main.cpp:746-769 and 811-842. Error and warning messages on the error stream are modelled only in `handleErrors`, as the lines it returns.

**Code not in the sources**
- The real MNA assembler, `set_MNA_RHS`, and the bodies of `clearComponentHistory`, `updateComponentStates` and `setDeltaT`. Each appears in the sources only as a declaration or a call.
  - The assembler is a parameter.
  - The two history and state steps are given their evident bodies (see "Steps without bodies" above), so a second transient run starts from empty histories. Any further effect the missing bodies might have is not modelled.
  - `setDeltaT` is modelled as storing its argument.
- `findVoltageSource`, `findOrCreateNode`, the `delete*` functions, `countNonGroundNodes` and the other declarations of include/Circuit.h without a definition in the sources.
- `dcSweepAnalysis`, AC analysis, the complex solver and the diode relaxation loop, which have no code.

**Numbers and memory**
- Floating-point rounding. Every `double` is an exact real, so the solver's A·x = b and the time points s·t_step are exact. The 1e-9 tolerance is kept as written.
- The 32-bit width of `Node::nextNum`: the counter is unbounded.
- Pointer invalidation of `&node` into a `vector<Node>` after `push_back` (main.cpp). Nodes are objects whose references stay valid.
- include/Circuit.h declares `vector<Node*> nodes`, while src/Circuit.cpp iterates values. The model follows the .cpp files.
- include/Diode.h declares Is, Vt and n, while src/Diode.cpp uses state and branch index. The model follows the .cpp files.
- include/Node.h lacks the history fields src/Node.cpp uses. The model follows the .cpp files.

**Preconditions the source leaves implicit**
- `LinearSolver.GaussianElimination` requires rows 1.. to be at least n wide (`CallerRowsWide`). The source checks only row 0 and reads the other rows unchecked.
- `Analysis.DcAnalysis`, `Analysis.TransientAnalysis` and the steps between them require the assembled systems to be readable (`Readable`, `StepsReadable`). The source reads sol[N + i] for the source and inductor currents without a bound check.
- `Analysis.TransientAnalysis` requires t_step > 0. The user interface passes t_step and t_stop on unchecked (wpfUI/SimulationSettingsWindow.xaml.cs:27-28, src/CircuitSimulatorInterface.cpp:77-81). So the requirement also excludes some runs the source finishes:
  - with t_stop < 0, whatever t_step is, the loop body never runs;
  - with t_step ≤ 0, the loop still leaves at the first empty MNA_A (src/Analysis.cpp:65). As written, the empty `set_MNA_A` stub leaves MNA_A empty, so the first iteration leaves.

  Only with t_step ≤ 0, t_stop ≥ 0 and no assembly ever empty would the source's loop not end, because t never passes t_stop. The model's loop decreases towards `TimePoints(t_step, t_stop)`, which needs t_step > 0.
- The drivers require increasing node numbers and no repeated source or inductor objects. This is what `Circuit.Valid` and the by-value lists of the source give.

**Contracts stated weaker than the source's behaviour**
- Analysis.TransientAnalysis: does not restate that ground nodes keep their voltage and end with empty histories, nor that the sweep histories end empty. `Circuits.Circuit.ClearComponentHistory`, `Analysis.DcAnalysis` and `Analysis.TransientRun`, the steps it runs, state these.
- Analysis.TransientAnalysis: does not state the capacitor and inductor states it leaves. Each iteration's update is stated by `Analysis.Iteration`, and the setup's by `Analysis.TransientPrepare`. The same holds for `Analysis.TransientFromCleared`.
- Analysis.TransientLoop: does not state the capacitor and inductor states it leaves. `Analysis.Iteration` states them for each iteration: kept on a stop, updated as `update` gives on an advance. Carrying "settled" as a loop invariant made the loop's proof too costly.
- Analysis.TransientRun: does not state the capacitor and inductor states it leaves, for the same reason as `Analysis.TransientLoop`, whose run it is.
- Analysis.FinishSetup: states that the components end settled (`ComponentsSettled`), not that an unconnected capacitor or inductor keeps its old value. `Circuits.Circuit.UpdateComponentStates`, which it calls, states both. The same holds for `Analysis.TransientSetup` and `Analysis.TransientPrepare`.
- Analysis.AdvanceIteration: states settledness only after an advance, or on a stop when the components were settled before. `Analysis.Iteration` states the updates without it.
- Analysis.TransientFromCleared: does not restate that ground nodes keep their voltage and history. `Analysis.DcAnalysis` and `Analysis.TransientRun` state it.
- Analysis.TransientSetup: does not restate that ground nodes keep their voltage. `Analysis.DcAnalysis`, which it calls, states it.
- Analysis.TransientPrepare: does not restate that ground nodes keep their voltage. `Analysis.DcAnalysis` states it.
- Analysis.TransientPrepare: collects the non-ground nodes before the DC solve, whereas src/Analysis.cpp:46-51 collects them after. The DC solve changes no ground flag, so the list is the same.
- DcFill.DcOperatingPoint: states ground-node voltages only for nodes that end up ground. Non-ground nodes are covered by the write-back clauses.
