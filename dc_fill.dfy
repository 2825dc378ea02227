/**
 * The simplified DC analysis inside `main` (main.cpp:464-587): mark the ground
 * nodes, number the non-ground nodes, fill A and b stage by stage, solve, and
 * write the solved voltages back.
 *
 * main.cpp's circuit carries one voltage source, `VIN`, instead of a list; it is
 * passed here beside the circuit. The fill reads only the terminals' ground
 * flags and numbers, so its result is stated with the stage functions of `Mna`
 * applied to the components' stamps.
 */
module DcFill {
  import opened Matrices
  import opened Nodes
  import opened Resistors
  import opened Inductors
  import opened VoltageSources
  import opened CurrentSources
  import opened Circuits
  import opened Mna
  import LinearSolver

  /** `nodeNumToMatrixIndex[num]`: `std::map::operator[]` yields 0 for a missing key. */
  function Lookup(index: map<int, int>, num: int): int {
    if num in index then index[num] else 0
  }

  /** Every index the map holds is a row of an n-row system. */
  predicate IndexIn(index: map<int, int>, n: nat) {
    forall k | k in index :: 0 <= index[k] < n
  }

  /** The map the numbering loop builds: node number to position, later positions winning. */
  function IndexMap(ns: seq<Node>): map<int, int>
    decreases |ns|
  {
    if |ns| == 0 then map[] else IndexMap(ns[..|ns| - 1])[ns[|ns| - 1].num := |ns| - 1]
  }

  /** Numbering one more node sends its number to the next position. */
  lemma IndexMapSnoc(ns: seq<Node>, x: Node)
    ensures IndexMap(ns + [x]) == IndexMap(ns)[x.num := |ns|]
  {
    assert (ns + [x])[..|ns|] == ns;
  }

  /** Scanning one more node adds it to the non-ground list unless it is ground. */
  lemma NonGroundSnoc(ns: seq<Node>, k: nat)
    requires k < |ns|
    ensures NonGround(ns[..k + 1]) == NonGround(ns[..k]) + (if ns[k].isGround then [] else [ns[k]])
  {
    assert ns[..k + 1][..k] == ns[..k];
  }

  /**
   * `nodeNumToMatrixIndex` and `matrixIndexToNodeNum` are inverse maps: every
   * key maps to a position holding that number, every position's number is a
   * key, and with distinct numbers each position maps back to itself.
   */
  lemma {:induction false} IndexMapInverse(ns: seq<Node>)
    ensures IndexIn(IndexMap(ns), |ns|)
    ensures forall k | k in IndexMap(ns) :: ns[IndexMap(ns)[k]].num == k
    ensures forall i | 0 <= i < |ns| :: ns[i].num in IndexMap(ns)
    ensures Increasing(ns) ==> forall i | 0 <= i < |ns| :: IndexMap(ns)[ns[i].num] == i
    decreases |ns|
  {
    if |ns| > 0 {
      var prefix := ns[..|ns| - 1];
      IndexMapInverse(prefix);
      assert forall i | 0 <= i < |prefix| :: prefix[i] == ns[i];
      if Increasing(ns) {
        assert Increasing(prefix);
        forall i | 0 <= i < |ns| ensures IndexMap(ns)[ns[i].num] == i {
          if i < |prefix| {
            assert ns[i].num < ns[|ns| - 1].num;
          }
        }
      }
    }
  }

  /** Where a terminal lands, as the fill decides it: null first, then the ground flag, then the map. */
  function PinOf(t: Node?, index: map<int, int>): Pin
    reads t
  {
    if t == null then Absent else if t.isGround then Grounded else At(Lookup(index, t.num))
  }

  function ResistorTerminals(rs: seq<Resistor>): set<Node?> {
    (set r | r in rs :: r.node1) + (set r | r in rs :: r.node2)
  }

  function SourceTerminals(cs: seq<CurrentSource>): set<Node?> {
    (set s | s in cs :: s.node1) + (set s | s in cs :: s.node2)
  }

  function InductorTerminals(ls: seq<Inductor>): set<Node?> {
    (set l | l in ls :: l.node1) + (set l | l in ls :: l.node2)
  }

  /** The resistors as the fill sees them. */
  function ResistorStamps(rs: seq<Resistor>, index: map<int, int>, n: nat): (ss: seq<Stamp>)
    requires n > 0 && IndexIn(index, n)
    reads ResistorTerminals(rs)
    ensures |ss| == |rs| && StampsIn(ss, n)
  {
    seq(|rs|, k reads ResistorTerminals(rs) requires 0 <= k < |rs| =>
      Stamp(PinOf(rs[k].node1, index), PinOf(rs[k].node2, index), rs[k].resistance))
  }

  /** The current sources as the fill sees them. */
  function SourceStamps(cs: seq<CurrentSource>, index: map<int, int>, n: nat): (ss: seq<Stamp>)
    requires n > 0 && IndexIn(index, n)
    reads SourceTerminals(cs)
    ensures |ss| == |cs| && StampsIn(ss, n)
  {
    seq(|cs|, k reads SourceTerminals(cs) requires 0 <= k < |cs| =>
      Stamp(PinOf(cs[k].node1, index), PinOf(cs[k].node2, index), cs[k].value))
  }

  /** The inductors as the fill sees them (their inductance plays no part). */
  function InductorStamps(ls: seq<Inductor>, index: map<int, int>, n: nat): (ss: seq<Stamp>)
    requires n > 0 && IndexIn(index, n)
    reads InductorTerminals(ls)
    ensures |ss| == |ls| && StampsIn(ss, n)
  {
    seq(|ls|, k reads InductorTerminals(ls) requires 0 <= k < |ls| =>
      Stamp(PinOf(ls[k].node1, index), PinOf(ls[k].node2, index), ls[k].inductance))
  }

  /** VIN as the fill sees it. */
  function VinStamp(vin: VoltageSource, index: map<int, int>, n: nat): (s: Stamp)
    requires n > 0 && IndexIn(index, n)
    reads vin.node1, vin.node2
    ensures StampIn(s, n)
  {
    Stamp(PinOf(vin.node1, index), PinOf(vin.node2, index), vin.value)
  }

  /** The system the fill builds from the circuit as it stands. */
  function DcSystem(c: Circuit, vin: VoltageSource, index: map<int, int>, n: nat): (r: (Matrix, Vector))
    requires n > 0 && IndexIn(index, n)
    reads c, ResistorTerminals(c.resistors), SourceTerminals(c.currentSources)
    reads InductorTerminals(c.inductors), vin.node1, vin.node2
  {
    Fill(n, ResistorStamps(c.resistors, index, n), VinStamp(vin, index, n),
         SourceStamps(c.currentSources, index, n), InductorStamps(c.inductors, index, n))
  }

  /** The nodes' names, in order. */
  function Names(ns: seq<Node>): (r: seq<string>)
    reads ns
    ensures |r| == |ns| && forall k | 0 <= k < |ns| :: r[k] == ns[k].name
  {
    seq(|ns|, k requires 0 <= k < |ns| reads ns => ns[k].name)
  }

  /** No earlier entry carries entry k's name, so `findNode` on that name finds entry k. */
  predicate FirstOfName(names: seq<string>, k: nat)
    requires k < |names|
  {
    forall j | 0 <= j < k :: names[j] != names[k]
  }

  /** `setGround(true)` reaches entry k: its name is on the ground list and it is the first of that name. */
  predicate MarkedGround(names: seq<string>, groundNames: seq<string>, k: nat)
    requires k < |names|
  {
    names[k] in groundNames && FirstOfName(names, k)
  }

  /** When k0 is the first entry named `name`, it is the only entry named `name` that is first of its name. */
  lemma FirstOfNameUnique(names: seq<string>, name: string, k0: nat)
    requires k0 < |names| && names[k0] == name
    requires forall j | 0 <= j < k0 :: names[j] != name
    ensures forall k | 0 <= k < |names| && names[k] == name :: FirstOfName(names, k) <==> k == k0
  {
  }

  /** Lines 466-469, one ground name: `findNode(name)` and, if found, `setGround(true)` on it. */
  method GroundFirstNamed(c: Circuit, name: string)
    requires Distinct(c.nodes)
    modifies c.nodes`isGround, c.nodes`voltage
    ensures forall k | 0 <= k < |c.nodes| ::
      var hit := old(c.nodes[k].name) == name && FirstOfName(old(Names(c.nodes)), k);
      c.nodes[k].isGround == (old(c.nodes[k].isGround) || hit) &&
      c.nodes[k].voltage == (if hit then 0.0 else old(c.nodes[k].voltage))
  {
    ghost var names := Names(c.nodes);
    var node := c.FindNode(name);
    if node != null {
      ghost var k0 :| 0 <= k0 < |c.nodes| && c.nodes[k0] == node &&
        forall j | 0 <= j < k0 :: c.nodes[j].name != name;
      FirstOfNameUnique(names, name, k0);
      node.SetGround(true);
      assert forall k | 0 <= k < |c.nodes| && k != k0 :: c.nodes[k] != node;
    }
  }

  /**
   * Lines 464-470: each listed ground name grounds the first node of that name
   * (`setGround(true)` also zeroes its voltage); every other node keeps its state.
   */
  method MarkGroundNodes(c: Circuit)
    requires Distinct(c.nodes)
    modifies c.nodes`isGround, c.nodes`voltage
    ensures forall k | 0 <= k < |c.nodes| ::
      var marked := MarkedGround(old(Names(c.nodes)), c.groundNodeNames, k);
      c.nodes[k].isGround == (old(c.nodes[k].isGround) || marked) &&
      c.nodes[k].voltage == (if marked then 0.0 else old(c.nodes[k].voltage))
  {
    ghost var names := Names(c.nodes);
    for g := 0 to |c.groundNodeNames|
      invariant forall k | 0 <= k < |c.nodes| :: c.nodes[k].name == names[k]
      invariant forall k | 0 <= k < |c.nodes| ::
        var marked := names[k] in c.groundNodeNames[..g] && FirstOfName(names, k);
        c.nodes[k].isGround == (old(c.nodes[k].isGround) || marked) &&
        c.nodes[k].voltage == (if marked then 0.0 else old(c.nodes[k].voltage))
    {
      assert c.groundNodeNames[..g + 1] == c.groundNodeNames[..g] + [c.groundNodeNames[g]];
      assert Names(c.nodes) == names;
      GroundFirstNamed(c, c.groundNodeNames[g]);
    }
    assert c.groundNodeNames[..|c.groundNodeNames|] == c.groundNodeNames;
    assert Names(c.nodes) == names;
  }

  /** Lines 472-485: the non-ground nodes, the number-to-row map and the row-to-number list. */
  method IndexNodes(c: Circuit) returns (nonGround: seq<Node>, index: map<int, int>, order: seq<int>)
    ensures nonGround == NonGround(c.nodes)
    ensures index == IndexMap(nonGround)
    ensures |order| == |nonGround| && forall i | 0 <= i < |order| :: order[i] == nonGround[i].num
  {
    nonGround := [];
    index := map[];
    order := [];
    var currentMatrixIdx := 0;
    for k := 0 to |c.nodes|
      invariant nonGround == NonGround(c.nodes[..k])
      invariant index == IndexMap(nonGround) && currentMatrixIdx == |nonGround|
      invariant |order| == |nonGround| && forall i | 0 <= i < |order| :: order[i] == nonGround[i].num
    {
      NonGroundSnoc(c.nodes, k);
      var node := c.nodes[k];
      if !node.isGround {
        IndexMapSnoc(nonGround, node);
        nonGround := nonGround + [node];
        index := index[node.num := currentMatrixIdx];
        order := order + [node.num];
        currentMatrixIdx := currentMatrixIdx + 1;
      }
    }
    assert c.nodes[..|c.nodes|] == c.nodes;
  }

  /** Lines 494-516: the resistor loop. */
  method FillResistors(c: Circuit, index: map<int, int>, n: nat) returns (a: Matrix)
    requires n > 0 && IndexIn(index, n)
    ensures a == StampResistors(ZeroMatrix(n), ResistorStamps(c.resistors, index, n), n)
  {
    ghost var ss := ResistorStamps(c.resistors, index, n);
    a := ZeroMatrix(n);
    for k := 0 to |c.resistors|
      invariant a == StampResistors(ZeroMatrix(n), ss[..k], n)
    {
      assert ss[..k + 1][..k] == ss[..k];
      var res := c.resistors[k];
      ghost var s := ss[k];
      assert a == StampResistors(ZeroMatrix(n), ss[..k + 1][..k], n);
      if res.node1 == null || res.node2 == null || res.resistance == 0.0 {
        continue;
      }
      var g := 1.0 / res.resistance;
      var n1 := res.node1;
      var n2 := res.node2;
      if !n1.isGround && !n2.isGround {
        var mx1 := Lookup(index, n1.num);
        var mx2 := Lookup(index, n2.num);
        assert s.p1 == At(mx1) && s.p2 == At(mx2);
        a := AddAt(a, mx1, mx1, g, n);
        a := AddAt(a, mx2, mx2, g, n);
        a := AddAt(a, mx1, mx2, -g, n);
        a := AddAt(a, mx2, mx1, -g, n);
      } else if n1.isGround && !n2.isGround {
        var mx2 := Lookup(index, n2.num);
        assert s.p1 == Grounded && s.p2 == At(mx2);
        a := AddAt(a, mx2, mx2, g, n);
      } else if !n1.isGround && n2.isGround {
        var mx1 := Lookup(index, n1.num);
        assert s.p1 == At(mx1) && s.p2 == Grounded;
        a := AddAt(a, mx1, mx1, g, n);
      }
    }
    assert ss[..|c.resistors|] == ss;
  }

  /** Lines 542-553: the current-source loop, which writes b only. */
  method FillCurrentSources(c: Circuit, index: map<int, int>, n: nat, b0: Vector) returns (b: Vector)
    requires n > 0 && IndexIn(index, n) && |b0| == n
    ensures b == InjectAll(b0, SourceStamps(c.currentSources, index, n), n)
  {
    ghost var ss := SourceStamps(c.currentSources, index, n);
    b := b0;
    for k := 0 to |c.currentSources|
      invariant b == InjectAll(b0, ss[..k], n)
    {
      assert ss[..k + 1][..k] == ss[..k];
      var cs := c.currentSources[k];
      ghost var s := ss[k];
      assert b == InjectAll(b0, ss[..k + 1][..k], n);
      if cs.node1 == null || cs.node2 == null {
        continue;
      }
      var nTo := cs.node1;
      var nFrom := cs.node2;
      ghost var b1 := b;
      if !nTo.isGround {
        var mx := Lookup(index, nTo.num);
        b := b[mx := b[mx] + cs.value];
      }
      if !nFrom.isGround {
        var mx := Lookup(index, nFrom.num);
        b := b[mx := b[mx] - cs.value];
      }
      assert b == Inject(b1, s, n);
    }
    assert ss[..|c.currentSources|] == ss;
  }

  /**
   * Lines 527-529, 532-534, 563-565 and 569-571: the row of unknown i is
   * cleared, its diagonal set to 1, and b[i] := v, which pins that unknown to v.
   */
  function FixRow(a: Matrix, b: Vector, i: nat, v: real, n: nat): (r: (Matrix, Vector))
    requires Square(a, n) && |b| == n && i < n
    ensures r == (a[i := UnitRow(n, i)], b[i := v])
  {
    assert ZeroVector(n)[i := 1.0] == UnitRow(n, i);
    (a[i := ZeroVector(n)[i := 1.0]], b[i := v])
  }

  /** Lines 557-574: the inductor loop; a grounded inductor replaces the other terminal's row. */
  method FillInductors(c: Circuit, index: map<int, int>, n: nat, a0: Matrix, b0: Vector) returns (a: Matrix, b: Vector)
    requires n > 0 && IndexIn(index, n) && Square(a0, n) && |b0| == n
    ensures (a, b) == ShortAll(a0, b0, InductorStamps(c.inductors, index, n), n)
  {
    ghost var ss := InductorStamps(c.inductors, index, n);
    a, b := a0, b0;
    for k := 0 to |c.inductors|
      invariant (a, b) == ShortAll(a0, b0, ss[..k], n)
    {
      assert ss[..k + 1][..k] == ss[..k];
      var ind := c.inductors[k];
      ghost var s := ss[k];
      assert (a, b) == ShortAll(a0, b0, ss[..k + 1][..k], n);
      if ind.node1 == null || ind.node2 == null {
        continue;
      }
      ghost var before := (a, b);
      if ind.node1.isGround && !ind.node2.isGround {
        var n2 := ind.node2;
        var mx2 := Lookup(index, n2.num);
        var fixed := FixRow(a, b, mx2, 0.0, n);
        a, b := fixed.0, fixed.1;
        assert s.p1 == Grounded && s.p2 == At(mx2);
        assert (a, b) == Short(before.0, before.1, s, n);
      } else if !ind.node1.isGround && ind.node2.isGround {
        var n1 := ind.node1;
        var mx1 := Lookup(index, n1.num);
        var fixed := FixRow(a, b, mx1, 0.0, n);
        a, b := fixed.0, fixed.1;
        assert s.p1 == At(mx1) && s.p2 == Grounded;
        assert (a, b) == Short(before.0, before.1, s, n);
      }
    }
    assert ss[..|c.inductors|] == ss;
  }

  /** Lines 521-538: VIN with exactly one grounded terminal replaces the other terminal's row. */
  method FillVin(vin: VoltageSource, index: map<int, int>, n: nat, a0: Matrix, b0: Vector) returns (a: Matrix, b: Vector)
    requires n > 0 && IndexIn(index, n) && Square(a0, n) && |b0| == n
    ensures (a, b) == StampVin(a0, b0, VinStamp(vin, index, n), n)
  {
    a, b := a0, b0;
    ghost var s := VinStamp(vin, index, n);
    if vin.node1 != null && vin.node2 != null {
      var vinN1 := vin.node1;
      var vinN2 := vin.node2;
      if vinN1.isGround && !vinN2.isGround {
        var mx2 := Lookup(index, vinN2.num);
        var fixed := FixRow(a, b, mx2, -vin.value, n);
        a, b := fixed.0, fixed.1;
        assert s.p1 == Grounded && s.p2 == At(mx2);
      } else if !vinN1.isGround && vinN2.isGround {
        var mx1 := Lookup(index, vinN1.num);
        var fixed := FixRow(a, b, mx1, vin.value, n);
        a, b := fixed.0, fixed.1;
        assert s.p1 == At(mx1) && s.p2 == Grounded;
      }
    }
  }

  /** Lines 487-574: the four stages, in the source's order. */
  method FillSystem(c: Circuit, vin: VoltageSource, index: map<int, int>, n: nat) returns (a: Matrix, b: Vector)
    requires n > 0 && IndexIn(index, n)
    ensures (a, b) == DcSystem(c, vin, index, n)
  {
    ghost var f := FillInput(c, vin, index, n);
    a := FillResistors(c, index, n);
    FillStampsKept(f);
    label resistorsDone:
    a, b := FillVin(vin, index, n, a, ZeroVector(n));
    FillStampsKept@resistorsDone(f);
    label vinDone:
    b := FillCurrentSources(c, index, n, b);
    FillStampsKept@vinDone(f);
    label sourcesDone:
    a, b := FillInductors(c, index, n, a, b);
    FillStampsKept@sourcesDone(f);
  }

  /**
   * Lines 582-583, one row: `findNodeByNum` on a node's own number finds that
   * node (numbers strictly increase along the list), which stores the value.
   */
  method StoreVoltage(c: Circuit, num: int, v: real, ghost node: Node)
    requires Increasing(c.nodes) && node in c.nodes && node.num == num && !node.isGround
    modifies node`voltage
    ensures node.voltage == v
  {
    ghost var k :| 0 <= k < |c.nodes| && c.nodes[k] == node;
    FindOwnNumber(c, k);
    var found := c.FindNodeByNum(num);
    if found != null {
      found.SetVoltage(v);
    }
  }

  /**
   * Lines 580-585: once the solution has one entry per row, entry i goes to the
   * node numbered `matrixIndexToNodeNum[i]`, that is, to the i-th non-ground node.
   */
  method WriteBack(c: Circuit, order: seq<int>, sol: Vector, ghost nonGround: seq<Node>)
    requires Increasing(c.nodes) && Distinct(nonGround)
    requires forall i | 0 <= i < |nonGround| :: nonGround[i] in c.nodes && !nonGround[i].isGround
    requires |order| == |nonGround| && forall i | 0 <= i < |order| :: order[i] == nonGround[i].num
    requires |sol| == |order|
    modifies c.nodes`voltage
    ensures forall i | 0 <= i < |nonGround| :: nonGround[i].voltage == sol[i]
    ensures forall k | 0 <= k < |c.nodes| && c.nodes[k].isGround :: c.nodes[k].voltage == old(c.nodes[k].voltage)
  {
    for i := 0 to |order|
      invariant forall k | 0 <= k < |c.nodes| && c.nodes[k].isGround :: c.nodes[k].voltage == old(c.nodes[k].voltage)
      invariant forall j | 0 <= j < i :: nonGround[j].voltage == sol[j]
    {
      StoreVoltage(c, order[i], sol[i], nonGround[i]);
    }
  }

  /** What the fill reads besides the ground flags: the circuit, VIN and the numbering. */
  datatype FillInput = FillInput(c: Circuit, vin: VoltageSource, index: map<int, int>, n: nat)

  /**
   * The fill depends on the terminals' ground flags and numbers only: a step
   * that keeps the circuit's lists and those flags keeps its system.
   */
  twostate lemma FillStampsKept(f: FillInput)
    requires f.n > 0 && IndexIn(f.index, f.n)
    requires unchanged(f.c)
    requires forall t: Node | t in ResistorTerminals(f.c.resistors) :: t.isGround == old(t.isGround)
    requires forall t: Node | t in SourceTerminals(f.c.currentSources) :: t.isGround == old(t.isGround)
    requires forall t: Node | t in InductorTerminals(f.c.inductors) :: t.isGround == old(t.isGround)
    requires f.vin.node1 != null ==> f.vin.node1.isGround == old(f.vin.node1.isGround)
    requires f.vin.node2 != null ==> f.vin.node2.isGround == old(f.vin.node2.isGround)
    ensures ResistorStamps(f.c.resistors, f.index, f.n) == old(ResistorStamps(f.c.resistors, f.index, f.n))
    ensures SourceStamps(f.c.currentSources, f.index, f.n) == old(SourceStamps(f.c.currentSources, f.index, f.n))
    ensures InductorStamps(f.c.inductors, f.index, f.n) == old(InductorStamps(f.c.inductors, f.index, f.n))
    ensures VinStamp(f.vin, f.index, f.n) == old(VinStamp(f.vin, f.index, f.n))
  {
    var index, n := f.index, f.n;
    var rs, cs, ls := f.c.resistors, f.c.currentSources, f.c.inductors;
    forall k | 0 <= k < |rs|
      ensures ResistorStamps(rs, index, n)[k] == old(ResistorStamps(rs, index, n))[k]
    {
      assert rs[k].node1 in ResistorTerminals(rs) && rs[k].node2 in ResistorTerminals(rs);
    }
    forall k | 0 <= k < |cs|
      ensures SourceStamps(cs, index, n)[k] == old(SourceStamps(cs, index, n))[k]
    {
      assert cs[k].node1 in SourceTerminals(cs) && cs[k].node2 in SourceTerminals(cs);
    }
    forall k | 0 <= k < |ls|
      ensures InductorStamps(ls, index, n)[k] == old(InductorStamps(ls, index, n))[k]
    {
      assert ls[k].node1 in InductorTerminals(ls) && ls[k].node2 in InductorTerminals(ls);
    }
    assert ResistorStamps(rs, index, n) == old(ResistorStamps(rs, index, n));
    assert SourceStamps(cs, index, n) == old(SourceStamps(cs, index, n));
    assert InductorStamps(ls, index, n) == old(InductorStamps(ls, index, n));
    assert VinStamp(f.vin, index, n) == old(VinStamp(f.vin, index, n));
  }

  /** The solve, which leaves the circuit's system as it was. */
  method SolveKeeping(c: Circuit, vin: VoltageSource, index: map<int, int>, a: Matrix, b: Vector, ghost solve: LinearSolver.Solver) returns (x: Vector)
    requires |a| > 0 && IndexIn(index, |a|) && Square(a, |a|)
    requires LinearSolver.IsGaussian(solve)
    ensures x == solve(a, b)
    ensures x == [] || |x| == |a|
    ensures x != [] ==> LinearSolver.Solves(a, b, x)
    ensures DcSystem(c, vin, index, |a|) == old(DcSystem(c, vin, index, |a|))
  {
    x := LinearSolver.GaussianSolve(a, b, solve);
    FillStampsKept(FillInput(c, vin, index, |a|));
  }

  /** The write-back, which leaves the circuit's system as it was. */
  method WriteBackKeeping(c: Circuit, vin: VoltageSource, index: map<int, int>, order: seq<int>, sol: Vector, ghost nonGround: seq<Node>)
    requires Increasing(c.nodes) && Distinct(nonGround)
    requires forall i | 0 <= i < |nonGround| :: nonGround[i] in c.nodes && !nonGround[i].isGround
    requires |order| == |nonGround| && forall i | 0 <= i < |order| :: order[i] == nonGround[i].num
    requires |sol| == |order| > 0 && IndexIn(index, |sol|)
    modifies c.nodes`voltage
    ensures forall i | 0 <= i < |nonGround| :: nonGround[i].voltage == sol[i]
    ensures forall k | 0 <= k < |c.nodes| && c.nodes[k].isGround :: c.nodes[k].voltage == old(c.nodes[k].voltage)
    ensures DcSystem(c, vin, index, |sol|) == old(DcSystem(c, vin, index, |sol|))
  {
    WriteBack(c, order, sol, nonGround);
    FillStampsKept(FillInput(c, vin, index, |sol|));
  }

  /** The numbering of lines 472-485, stated by what it collects: every non-ground node, once, in list order. */
  method NumberNodes(c: Circuit) returns (nonGround: seq<Node>, index: map<int, int>, order: seq<int>)
    requires Increasing(c.nodes)
    ensures Increasing(nonGround) && Distinct(nonGround)
    ensures index == IndexMap(nonGround) && IndexIn(index, |nonGround|)
    ensures |order| == |nonGround| && forall i | 0 <= i < |order| :: order[i] == nonGround[i].num
    ensures ListsNonGround(c.nodes, nonGround)
  {
    nonGround, index, order := IndexNodes(c);
    NonGroundIncreasing(c.nodes);
    IndexMapInverse(nonGround);
  }

  /**
   * Lines 472-587 up to the VIN current estimate: numbering, the fill, the
   * solve, and the write-back when the solver returns one value per row. With
   * no non-ground node nothing is filled or solved.
   */
  method NumberAndSolve(c: Circuit, vin: VoltageSource, ghost solve: LinearSolver.Solver) returns (nonGround: seq<Node>, a: Matrix, b: Vector, x: Vector)
    requires LinearSolver.IsGaussian(solve)
    requires Increasing(c.nodes)
    modifies c.nodes`voltage
    ensures forall k | 0 <= k < |c.nodes| && c.nodes[k].isGround :: c.nodes[k].voltage == old(c.nodes[k].voltage)
    ensures Increasing(nonGround) && IndexIn(IndexMap(nonGround), |nonGround|)
    ensures ListsNonGround(c.nodes, nonGround)
    ensures |nonGround| == 0 ==> a == [] && b == [] && x == []
    ensures |nonGround| > 0 ==> Square(a, |nonGround|) && x == solve(a, b)
    ensures |nonGround| > 0 ==> (a, b) == DcSystem(c, vin, IndexMap(nonGround), |nonGround|)
    ensures x == [] || |x| == |nonGround|
    ensures x != [] ==> LinearSolver.Solves(a, b, x)
    ensures x != [] ==> forall i | 0 <= i < |nonGround| :: nonGround[i].voltage == x[i]
    ensures x == [] ==> forall i | 0 <= i < |nonGround| :: nonGround[i].voltage == old(nonGround[i].voltage)
  {
    var index, order;
    nonGround, index, order := NumberNodes(c);
    var n := |nonGround|;
    a, b, x := [], [], [];
    if n > 0 {
      a, b := FillSystem(c, vin, index, n);
      x := SolveKeeping(c, vin, index, a, b, solve);
      if |x| == n {
        WriteBackKeeping(c, vin, index, order, x, nonGround);
      }
    }
  }

  /**
   * Lines 464-587 up to the VIN current estimate: ground marking, numbering,
   * then the fill, the solve and the write-back.
   */
  method DcOperatingPoint(c: Circuit, vin: VoltageSource, ghost solve: LinearSolver.Solver) returns (nonGround: seq<Node>, a: Matrix, b: Vector, x: Vector)
    requires LinearSolver.IsGaussian(solve)
    requires Increasing(c.nodes) && Distinct(c.nodes)
    modifies c.nodes`isGround, c.nodes`voltage
    ensures forall k | 0 <= k < |c.nodes| ::
      var marked := MarkedGround(old(Names(c.nodes)), c.groundNodeNames, k);
      c.nodes[k].isGround == (old(c.nodes[k].isGround) || marked) &&
      (c.nodes[k].isGround ==> c.nodes[k].voltage == (if marked then 0.0 else old(c.nodes[k].voltage)))
    ensures Increasing(nonGround) && IndexIn(IndexMap(nonGround), |nonGround|)
    ensures ListsNonGround(c.nodes, nonGround)
    ensures |nonGround| == 0 ==> a == [] && b == [] && x == []
    ensures |nonGround| > 0 ==> Square(a, |nonGround|) && x == solve(a, b)
    ensures |nonGround| > 0 ==> (a, b) == DcSystem(c, vin, IndexMap(nonGround), |nonGround|)
    ensures x == [] || |x| == |nonGround|
    ensures x != [] ==> LinearSolver.Solves(a, b, x)
    ensures x != [] ==> forall i | 0 <= i < |nonGround| :: nonGround[i].voltage == x[i]
    ensures x == [] ==> forall i | 0 <= i < |nonGround| :: nonGround[i].voltage == old(nonGround[i].voltage)
  {
    MarkGroundNodes(c);
    nonGround, a, b, x := NumberAndSolve(c, vin, solve);
  }
}
