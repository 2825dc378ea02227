/**
 * The topology store (src/Circuit.cpp, include/Circuit.h; the same lookups and
 * `addNode` at main.cpp:252-327).
 *
 * The circuit owns its nodes and component lists, the names of the ground nodes,
 * the time step and the MNA system the analyses solve. Lookups are linear scans
 * that stop at the first match; `addNode` appends a node only when no node of
 * that name exists yet.
 */
module Circuits {
  import opened Options
  import opened Matrices
  import opened Nodes
  import opened Resistors
  import opened Capacitors
  import opened Inductors
  import opened Diodes
  import opened VoltageSources
  import opened CurrentSources

  /**
   * r is where a scan of s for the first element whose key is `key` stops:
   * that element's index, or None when no element has that key.
   */
  ghost predicate FirstMatch<T, K>(s: seq<T>, keyOf: T -> K, key: K, r: Option<nat>) {
    (r.Some? ==> r.value < |s| && keyOf(s[r.value]) == key &&
                 forall j | 0 <= j < r.value :: keyOf(s[j]) != key) &&
    (r.None? ==> forall j | 0 <= j < |s| :: keyOf(s[j]) != key)
  }

  /** The linear scan shared by the `find*` functions. */
  function FirstWith<T, K(==)>(s: seq<T>, keyOf: T -> K, key: K): (r: Option<nat>)
    ensures FirstMatch(s, keyOf, key, r)
    decreases |s|
  {
    if |s| == 0 then None
    else if keyOf(s[0]) == key then Some(0)
    else
      match FirstWith(s[1..], keyOf, key)
      case None => None
      case Some(i) => Some(i + 1)
  }

  /** The scan of `findNode`: node names can change, so it reads the nodes. */
  function FirstNamed(ns: seq<Node>, name: string): (r: Option<nat>)
    reads ns
    ensures r.Some? ==> r.value < |ns| && ns[r.value].name == name &&
                        forall j | 0 <= j < r.value :: ns[j].name != name
    ensures r.None? ==> forall j | 0 <= j < |ns| :: ns[j].name != name
    decreases |ns|
  {
    if |ns| == 0 then None
    else if ns[0].name == name then Some(0)
    else
      match FirstNamed(ns[1..], name)
      case None => None
      case Some(i) => Some(i + 1)
  }

  function NumOf(n: Node): int { n.num }
  function ResistorName(r: Resistor): string { r.name }
  function CapacitorName(c: Capacitor): string { c.name }
  function InductorName(l: Inductor): string { l.name }
  function DiodeName(d: Diode): string { d.name }
  function CurrentSourceName(s: CurrentSource): string { s.name }

  /** A terminal is either missing or one of the circuit's nodes. */
  predicate Attached(ns: seq<Node>, t: Node?) {
    t == null || t in ns
  }

  /** No object occurs twice in the list. */
  predicate Distinct<T(==)>(s: seq<T>) {
    forall i, j | 0 <= i < j < |s| :: s[i] != s[j]
  }

  /**
   * Every node's number is below the counter and the numbers increase along the
   * node list, so no two nodes share a number.
   */
  predicate Numbered(ns: seq<Node>, next: int) {
    (forall i, j | 0 <= i < j < |ns| :: ns[i].num < ns[j].num) &&
    (forall i | 0 <= i < |ns| :: ns[i].num < next)
  }

  /** Every terminal of every component is missing or one of the nodes `ns`. */
  predicate AllAttached(ns: seq<Node>, rs: seq<Resistor>, cs: seq<Capacitor>, ls: seq<Inductor>,
                        ds: seq<Diode>, vs: seq<VoltageSource>, ss: seq<CurrentSource>) {
    (forall r | r in rs :: Attached(ns, r.node1) && Attached(ns, r.node2)) &&
    (forall c | c in cs :: Attached(ns, c.node1) && Attached(ns, c.node2)) &&
    (forall l | l in ls :: Attached(ns, l.node1) && Attached(ns, l.node2)) &&
    (forall d | d in ds :: Attached(ns, d.node1) && Attached(ns, d.node2)) &&
    (forall v | v in vs :: Attached(ns, v.node1) && Attached(ns, v.node2)) &&
    (forall s | s in ss :: Attached(ns, s.node1) && Attached(ns, s.node2))
  }

  /** Appending a node numbered from the counter keeps the numbering, with the counter bumped. */
  lemma NumberedAppend(ns: seq<Node>, n: Node, next: int)
    requires Numbered(ns, next) && n.num == next
    ensures Numbered(ns + [n], next + 1)
  {
    var ns' := ns + [n];
    forall i, j | 0 <= i < j < |ns'| ensures ns'[i].num < ns'[j].num {
      if j < |ns| {
        assert ns'[i] == ns[i] && ns'[j] == ns[j];
      } else {
        assert ns'[i] == ns[i];
      }
    }
  }

  /** A node list that only grows keeps every terminal attached. */
  lemma AttachedAppend(ns: seq<Node>, n: Node, rs: seq<Resistor>, cs: seq<Capacitor>, ls: seq<Inductor>,
                       ds: seq<Diode>, vs: seq<VoltageSource>, ss: seq<CurrentSource>)
    requires AllAttached(ns, rs, cs, ls, ds, vs, ss)
    ensures AllAttached(ns + [n], rs, cs, ls, ds, vs, ss)
  {
    assert forall t: Node? | Attached(ns, t) :: Attached(ns + [n], t);
  }

  /** Appending an object not yet listed keeps the list free of repeats. */
  lemma DistinctAppend<T>(s: seq<T>, x: T)
    requires Distinct(s) && x !in s
    ensures Distinct(s + [x])
  {
    var s' := s + [x];
    forall i, j | 0 <= i < j < |s'| ensures s'[i] != s'[j] {
      assert s'[i] == s[i];
    }
  }

  /** What the circuit's state looks like to the assembler. */
  datatype CircuitState = CircuitState(
    deltaT: real,
    voltages: seq<real>,
    capacitorVoltages: seq<real>,
    inductorCurrents: seq<(real, real)>,
    sourceCurrents: seq<real>,
    diodeStates: seq<(DiodeState, int)>)

  /** The MNA system an assembler produces. */
  datatype MnaSystem = MnaSystem(a: Matrix, rhs: Vector)

  /** Steps whose bodies are not part of the sources, recorded in order. */
  datatype Event = HistoryCleared | StatesUpdated

  class Circuit {
    var nodes: seq<Node>
    var resistors: seq<Resistor>
    var capacitors: seq<Capacitor>
    var inductors: seq<Inductor>
    var diodes: seq<Diode>
    var voltageSources: seq<VoltageSource>
    var currentSources: seq<CurrentSource>
    var groundNodeNames: seq<string>
    var deltaT: real
    var mnaA: Matrix
    var mnaRhs: Vector
    var mnaSolution: Vector
    /** The counter new nodes draw their numbers from. */
    const numbering: NodeNumbering
    /** The calls to steps without a body, in the order they were made. */
    ghost var events: seq<Event>

    /**
     * The source keeps nodes and components by value, so no object is listed
     * twice; the model's reference lists say so explicitly.
     */
    ghost predicate Owned()
      reads this
    {
      Distinct(nodes) && Distinct(capacitors) && Distinct(inductors) &&
      Distinct(diodes) && Distinct(voltageSources)
    }

    /**
     * Node numbers are unique and ordered, every terminal is a node of this
     * circuit, and no object is listed twice.
     */
    ghost predicate Valid()
      reads this, numbering
    {
      Numbered(nodes, numbering.nextNum) &&
      AllAttached(nodes, resistors, capacitors, inductors, diodes, voltageSources, currentSources) &&
      Owned()
    }

    /** Every field except the node list. */
    ghost function AllButNodes(): (seq<Resistor>, seq<Capacitor>, seq<Inductor>, seq<Diode>, seq<VoltageSource>,
                                   seq<CurrentSource>, seq<string>, real, Matrix, Vector, Vector, seq<Event>)
      reads this
    {
      (resistors, capacitors, inductors, diodes, voltageSources, currentSources, groundNodeNames,
       deltaT, mnaA, mnaRhs, mnaSolution, events)
    }

    /** An empty circuit drawing node numbers from `numbering`. delta_t starts unset. */
    constructor (numbering: NodeNumbering)
      ensures this.numbering == numbering
      ensures nodes == [] && resistors == [] && capacitors == [] && inductors == []
      ensures diodes == [] && voltageSources == [] && currentSources == [] && groundNodeNames == []
      ensures mnaA == [] && mnaRhs == [] && mnaSolution == [] && events == []
      ensures Valid()
    {
      this.numbering := numbering;
      nodes := [];
      resistors := [];
      capacitors := [];
      inductors := [];
      diodes := [];
      voltageSources := [];
      currentSources := [];
      groundNodeNames := [];
      mnaA := [];
      mnaRhs := [];
      mnaSolution := [];
      events := [];
    }

    /** `findNode`: the first node with that name, or null. */
    function FindNode(name: string): (n: Node?)
      reads this, nodes
      ensures n != null ==> n in nodes && n.name == name
      ensures n != null ==> exists k | 0 <= k < |nodes| :: nodes[k] == n && forall j | 0 <= j < k :: nodes[j].name != name
      ensures n == null <==> forall j | 0 <= j < |nodes| :: nodes[j].name != name
    {
      match FirstNamed(nodes, name)
      case None => null
      case Some(k) => nodes[k]
    }

    /** `findNodeByNum`: the first node with that number, or null. */
    function FindNodeByNum(num: int): (n: Node?)
      reads this
      ensures n != null ==> n in nodes && n.num == num
      ensures n != null ==> exists k | 0 <= k < |nodes| :: nodes[k] == n && forall j | 0 <= j < k :: nodes[j].num != num
      ensures n == null <==> forall j | 0 <= j < |nodes| :: nodes[j].num != num
    {
      var r := FirstWith(nodes, NumOf, num);
      assert FirstMatch(nodes, NumOf, num, r);
      match r
      case None => null
      case Some(k) => nodes[k]
    }

    /** `findResistor`: the position of the first resistor with that name. */
    function FindResistor(name: string): (r: Option<nat>)
      reads this
      ensures FirstMatch(resistors, ResistorName, name, r)
    {
      FirstWith(resistors, ResistorName, name)
    }

    /** `findCapacitor`: the position of the first capacitor with that name. */
    function FindCapacitor(name: string): (r: Option<nat>)
      reads this
      ensures FirstMatch(capacitors, CapacitorName, name, r)
    {
      FirstWith(capacitors, CapacitorName, name)
    }

    /** `findInductor`: the position of the first inductor with that name. */
    function FindInductor(name: string): (r: Option<nat>)
      reads this
      ensures FirstMatch(inductors, InductorName, name, r)
    {
      FirstWith(inductors, InductorName, name)
    }

    /** `findDiode`: the position of the first diode with that name. */
    function FindDiode(name: string): (r: Option<nat>)
      reads this
      ensures FirstMatch(diodes, DiodeName, name, r)
    {
      FirstWith(diodes, DiodeName, name)
    }

    /** `findCurrentSource`: the position of the first current source with that name. */
    function FindCurrentSource(name: string): (r: Option<nat>)
      reads this
      ensures FirstMatch(currentSources, CurrentSourceName, name, r)
    {
      FirstWith(currentSources, CurrentSourceName, name)
    }

    /**
     * `addNode`: when no node has that name, one new node carrying it is appended;
     * otherwise nothing changes. Either way the name is found afterwards.
     */
    method AddNode(name: string)
      requires Valid()
      modifies this, numbering
      ensures Valid()
      ensures old(FindNode(name)) != null ==> nodes == old(nodes) && numbering.nextNum == old(numbering.nextNum)
      ensures old(FindNode(name)) == null ==>
        |nodes| == |old(nodes)| + 1 && nodes[..|old(nodes)|] == old(nodes) &&
        fresh(nodes[|old(nodes)|]) && nodes[|old(nodes)|].num == old(numbering.nextNum) &&
        nodes[|old(nodes)|].voltage == 0.0 && !nodes[|old(nodes)|].isGround
      ensures FindNode(name) != null
      ensures AllButNodes() == old(AllButNodes())
    {
      if FindNode(name) == null {
        AppendNode(name);
      }
    }

    /** The branch of `addNode` that creates a node under a new name. */
    method AppendNode(name: string)
      requires Valid() && FindNode(name) == null
      modifies this, numbering
      ensures Valid()
      ensures |nodes| == |old(nodes)| + 1 && nodes[..|old(nodes)|] == old(nodes) &&
        fresh(nodes[|old(nodes)|]) && nodes[|old(nodes)|].num == old(numbering.nextNum) &&
        nodes[|old(nodes)|].voltage == 0.0 && !nodes[|old(nodes)|].isGround
      ensures FindNode(name) != null
      ensures AllButNodes() == old(AllButNodes())
    {
      var newNode := new Node(numbering);
      newNode.name := name;
      PushNode(newNode);
      assert nodes[..|old(nodes)|] == old(nodes);
      assert FirstNamed(nodes, name).Some? by {
        assert nodes[|nodes| - 1].name == name;
      }
    }

    /** Listing a node numbered just below the counter, and not yet listed, keeps the circuit valid. */
    method PushNode(n: Node)
      requires Numbered(nodes, n.num) && numbering.nextNum == n.num + 1
      requires AllAttached(nodes, resistors, capacitors, inductors, diodes, voltageSources, currentSources)
      requires Owned() && n !in nodes
      modifies this`nodes
      ensures nodes == old(nodes) + [n]
      ensures Valid()
    {
      NumberedAppend(nodes, n, n.num);
      AttachedAppend(nodes, n, resistors, capacitors, inductors, diodes, voltageSources, currentSources);
      DistinctAppend(nodes, n);
      nodes := nodes + [n];
    }

    /** `G()`: the stub returns an empty matrix. */
    function G(): (m: Matrix)
      ensures m == []
    {
      []
    }

    /** `B()`: the stub returns an empty matrix. */
    function B(): (m: Matrix)
      ensures m == []
    {
      []
    }

    /** `C()`: the stub returns an empty matrix. */
    function C(): (m: Matrix)
      ensures m == []
    {
      []
    }

    /** `D()`: the stub returns an empty matrix. */
    function D(): (m: Matrix)
      ensures m == []
    {
      []
    }

    /** `J()`: the stub returns an empty matrix. */
    function J(): (m: Matrix)
      ensures m == []
    {
      []
    }

    /** `E()`: the stub returns an empty matrix. */
    function E(): (m: Matrix)
      ensures m == []
    {
      []
    }

    /** `set_MNA_A()`: the stub changes nothing. */
    method SetMnaA()
      ensures mnaA == old(mnaA) && mnaRhs == old(mnaRhs) && mnaSolution == old(mnaSolution)
    {
    }

    /** `set_MNA_v()`: the stub changes nothing. */
    method SetMnaV()
      ensures mnaA == old(mnaA) && mnaRhs == old(mnaRhs) && mnaSolution == old(mnaSolution)
    {
    }

    /** `set_MNA_x()`: the stub changes nothing. */
    method SetMnaX()
      ensures mnaA == old(mnaA) && mnaRhs == old(mnaRhs) && mnaSolution == old(mnaSolution)
    {
    }

    /** `setDeltaT`: stores the time step. */
    method SetDeltaT(dt: real)
      modifies this`deltaT
      ensures deltaT == dt
    {
      deltaT := dt;
    }

    /**
     * `clearComponentHistory` is declared without a body in the sources; it is
     * modelled as the evident one: `clearHistory` on every node and every
     * voltage source, the two classes that keep histories.
     */
    method ClearComponentHistory()
      modifies this`events, nodes`voltageHistory, nodes`dcSweepHistory, nodes`acSweepHistory, nodes`phaseSweepHistory
      modifies voltageSources`currentHistory, voltageSources`dcSweepCurrentHistory
      ensures events == old(events) + [HistoryCleared]
      ensures HistoriesCleared()
    {
      var ns := nodes;
      for k := 0 to |ns|
        invariant forall i | 0 <= i < k ::
          ns[i].voltageHistory == [] && ns[i].dcSweepHistory == [] && ns[i].acSweepHistory == [] && ns[i].phaseSweepHistory == []
        modifies ns`voltageHistory, ns`dcSweepHistory, ns`acSweepHistory, ns`phaseSweepHistory
      {
        ns[k].ClearHistory();
      }
      var vs := voltageSources;
      for j := 0 to |vs|
        invariant forall i | 0 <= i < j :: vs[i].currentHistory == [] && vs[i].dcSweepCurrentHistory == []
        modifies vs`currentHistory, vs`dcSweepCurrentHistory
      {
        vs[j].ClearHistory();
      }
      events := events + [HistoryCleared];
    }

    /** Every node and every voltage source has empty histories. */
    ghost predicate HistoriesCleared()
      reads this`nodes, this`voltageSources, nodes`voltageHistory, nodes`dcSweepHistory, nodes`acSweepHistory
      reads nodes`phaseSweepHistory, voltageSources`currentHistory, voltageSources`dcSweepCurrentHistory
    {
      (forall k | 0 <= k < |nodes| ::
        nodes[k].voltageHistory == [] && nodes[k].dcSweepHistory == [] &&
        nodes[k].acSweepHistory == [] && nodes[k].phaseSweepHistory == []) &&
      (forall j | 0 <= j < |voltageSources| ::
        voltageSources[j].currentHistory == [] && voltageSources[j].dcSweepCurrentHistory == [])
    }

    /**
     * `updateComponentStates` is declared without a body in the sources; it is
     * modelled as the evident one: `update(delta_t)` on every capacitor and
     * every inductor, the two classes with an `update`. A connected capacitor
     * then holds the voltage across it and a connected inductor its current;
     * an unconnected one keeps its state.
     */
    method UpdateComponentStates()
      modifies this`events, capacitors`prevVoltage, inductors`prevCurrent
      ensures events == old(events) + [StatesUpdated]
      ensures forall k | 0 <= k < |capacitors| ::
        capacitors[k].prevVoltage == UpdatedVoltage(capacitors[k], old(capacitors[k].prevVoltage))
      ensures forall k | 0 <= k < |inductors| ::
        inductors[k].prevCurrent == UpdatedCurrent(inductors[k], old(inductors[k].prevCurrent))
      ensures ComponentsSettled(capacitors, inductors)
    {
      var cs := capacitors;
      for k := 0 to |cs|
        invariant forall i | 0 <= i < |cs| ::
          cs[i].prevVoltage == if cs[i] in cs[..k] then UpdatedVoltage(cs[i], old(cs[i].prevVoltage)) else old(cs[i].prevVoltage)
        modifies cs`prevVoltage
      {
        cs[k].Update(deltaT);
      }
      assert cs[..|cs|] == cs;
      assert CapacitorsSettled(cs);
      var ls := inductors;
      for k := 0 to |ls|
        invariant forall i | 0 <= i < |ls| ::
          ls[i].prevCurrent == if ls[i] in ls[..k] then UpdatedCurrent(ls[i], old(ls[i].prevCurrent)) else old(ls[i].prevCurrent)
        modifies ls`prevCurrent
      {
        ls[k].Update(deltaT);
      }
      assert ls[..|ls|] == ls;
      assert InductorsSettled(ls);
      events := events + [StatesUpdated];
    }

    /** The state an assembler sees: the time step and every stored voltage, current and diode state. */
    function State(): CircuitState
      reads this, nodes, capacitors, inductors, voltageSources, diodes
    {
      var ns, cs, ls, vs, ds := nodes, capacitors, inductors, voltageSources, diodes;
      CircuitState(
        deltaT,
        seq(|ns|, i reads ns requires 0 <= i < |ns| => ns[i].voltage),
        seq(|cs|, i reads cs requires 0 <= i < |cs| => cs[i].prevVoltage),
        seq(|ls|, i reads ls requires 0 <= i < |ls| => (ls[i].current, ls[i].prevCurrent)),
        seq(|vs|, i reads vs requires 0 <= i < |vs| => vs[i].current),
        seq(|ds|, i reads ds requires 0 <= i < |ds| => (ds[i].currentState, ds[i].branchIndex)))
    }
  }

  /** The previous voltage a capacitor holds after `update` from p: v1 - v2 when connected, p otherwise. */
  function UpdatedVoltage(cap: Capacitor, p: real): real
    reads {cap.node1, cap.node2}`isGround, {cap.node1, cap.node2}`voltage
  {
    if cap.node1 != null && cap.node2 != null then cap.node1.GetVoltage() - cap.node2.GetVoltage() else p
  }

  /** The previous current an inductor holds after `update` from p: its current when connected, p otherwise. */
  function UpdatedCurrent(ind: Inductor, p: real): real
    reads ind`current
  {
    if ind.node1 != null && ind.node2 != null then ind.current else p
  }

  /** The capacitors' terminals (null for a missing one): the nodes whose voltages `update` reads. */
  function Terminals(caps: seq<Capacitor>): set<Node?> {
    (set k | 0 <= k < |caps| :: caps[k].node1) + (set k | 0 <= k < |caps| :: caps[k].node2)
  }

  /** Every connected capacitor holds the voltage across it: a second `update` would change nothing. */
  ghost predicate CapacitorsSettled(caps: seq<Capacitor>)
    reads caps`prevVoltage, Terminals(caps)`isGround, Terminals(caps)`voltage
  {
    forall k | 0 <= k < |caps| :: caps[k].prevVoltage == UpdatedVoltage(caps[k], caps[k].prevVoltage)
  }

  /** Every connected inductor holds its present current: a second `update` would change nothing. */
  ghost predicate InductorsSettled(inds: seq<Inductor>)
    reads inds`prevCurrent, inds`current
  {
    forall k | 0 <= k < |inds| :: inds[k].prevCurrent == UpdatedCurrent(inds[k], inds[k].prevCurrent)
  }

  /**
   * What `updateComponentStates` leaves: every connected capacitor holds the
   * voltage across it and every connected inductor its present current, so a
   * second call would change nothing.
   */
  ghost predicate ComponentsSettled(caps: seq<Capacitor>, inds: seq<Inductor>)
    reads caps`prevVoltage, Terminals(caps)`isGround, Terminals(caps)`voltage, inds`prevCurrent, inds`current
  {
    CapacitorsSettled(caps) && InductorsSettled(inds)
  }

  /** The non-ground nodes, in node-list order: the `nonGroundNodes` both drivers collect. */
  function NonGround(ns: seq<Node>): (r: seq<Node>)
    reads ns`isGround
    ensures |r| <= |ns|
    ensures forall k | 0 <= k < |r| :: r[k] in ns && !r[k].isGround
    ensures forall k | 0 <= k < |ns| && !ns[k].isGround :: ns[k] in r
    decreases |ns|
  {
    if |ns| == 0 then []
    else
      var last := ns[|ns| - 1];
      NonGround(ns[..|ns| - 1]) + (if last.isGround then [] else [last])
  }

  /** nonGround holds non-ground nodes of ns only, and every non-ground node of ns. */
  ghost predicate ListsNonGround(ns: seq<Node>, nonGround: seq<Node>)
    reads ns`isGround, nonGround`isGround
  {
    (forall i | 0 <= i < |nonGround| :: nonGround[i] in ns && !nonGround[i].isGround) &&
    (forall k | 0 <= k < |ns| && !ns[k].isGround :: ns[k] in nonGround)
  }

  /** Node numbers strictly increase along the list. */
  predicate Increasing(ns: seq<Node>) {
    forall i, j | 0 <= i < j < |ns| :: ns[i].num < ns[j].num
  }

  /** Keeping only the non-ground nodes keeps the numbers increasing, hence the nodes distinct. */
  lemma {:induction false} NonGroundIncreasing(ns: seq<Node>)
    requires Increasing(ns)
    ensures Increasing(NonGround(ns)) && Distinct(NonGround(ns))
    decreases |ns|
  {
    if |ns| > 0 {
      var prefix := ns[..|ns| - 1];
      var last := ns[|ns| - 1];
      NonGroundIncreasing(prefix);
      var rp := NonGround(prefix);
      if last.isGround {
        assert NonGround(ns) == rp;
      } else {
        forall i | 0 <= i < |rp| ensures rp[i].num < last.num {
          var k :| 0 <= k < |prefix| && prefix[k] == rp[i];
          assert ns[k] == prefix[k];
        }
        IncreasingAppend(rp, last);
      }
    }
    IncreasingDistinct(NonGround(ns));
  }

  /** A node numbered above every node of an increasing list extends it. */
  lemma IncreasingAppend(ns: seq<Node>, n: Node)
    requires Increasing(ns)
    requires forall i | 0 <= i < |ns| :: ns[i].num < n.num
    ensures Increasing(ns + [n])
  {
    var r := ns + [n];
    forall i, j | 0 <= i < j < |r| ensures r[i].num < r[j].num {
      assert r[i] == ns[i];
    }
  }

  /** Nodes with increasing numbers are distinct. */
  lemma IncreasingDistinct(ns: seq<Node>)
    requires Increasing(ns)
    ensures Distinct(ns)
  {
    forall i, j | 0 <= i < j < |ns| ensures ns[i] != ns[j] {
      assert ns[i].num < ns[j].num;
    }
  }

  /** With numbers strictly increasing, looking a node's own number up finds that node. */
  lemma FindOwnNumber(c: Circuit, i: nat)
    requires Increasing(c.nodes) && i < |c.nodes|
    ensures c.FindNodeByNum(c.nodes[i].num) == c.nodes[i]
  {
    var n := c.FindNodeByNum(c.nodes[i].num);
    var k :| 0 <= k < |c.nodes| && c.nodes[k] == n && forall j | 0 <= j < k :: c.nodes[j].num != c.nodes[i].num;
    if k < i {
      assert c.nodes[k].num < c.nodes[i].num;
    } else if k > i {
      assert c.nodes[i].num < c.nodes[k].num;
    }
  }

}
