/**
 * The sanity checks `handleErrors` runs before the DC analysis (main.cpp:771-809).
 *
 * Each check writes one line to the error stream and never stops the program;
 * the model returns those lines, in order, as a list of diagnostics. Every
 * check reads only what a component is built with (names, values, terminals),
 * so the expected report is a function of the circuit's lists.
 */
module ErrorChecks {
  import opened Nodes
  import opened Resistors
  import opened Capacitors
  import opened Inductors
  import opened VoltageSources
  import opened CurrentSources
  import opened Circuits

  datatype Diagnostic =
    | NoGround
    | NonPositiveResistance(name: string, resistance: real)
    | ResistorNullNode(name: string)
    | NonPositiveCapacitance(name: string, capacitance: real)
    | CapacitorNullNode(name: string)
    | NonPositiveInductance(name: string, inductance: real)
    | InductorNullNode(name: string)
    | VinSameNode(name: string)
    | CurrentSourceSameNode(name: string)

  /** The reports of each element of `s`, one after the other, in list order. */
  function Each<T>(s: seq<T>, check: T -> seq<Diagnostic>): seq<Diagnostic>
    decreases |s|
  {
    if |s| == 0 then [] else Each(s[..|s| - 1], check) + check(s[|s| - 1])
  }

  /** A report comes out of the loop exactly when some element produces it. */
  lemma {:induction false} EachReports<T>(s: seq<T>, check: T -> seq<Diagnostic>, d: Diagnostic)
    ensures d in Each(s, check) <==> exists i | 0 <= i < |s| :: d in check(s[i])
    decreases |s|
  {
    if |s| > 0 {
      var prefix := s[..|s| - 1];
      EachReports(prefix, check, d);
      if d in Each(prefix, check) {
        var i :| 0 <= i < |prefix| && d in check(prefix[i]);
        assert s[i] == prefix[i];
      }
      if exists i | 0 <= i < |s| :: d in check(s[i]) {
        var i :| 0 <= i < |s| && d in check(s[i]);
        if i < |prefix| {
          assert s[i] == prefix[i];
        }
      }
    }
  }

  /** A report no element produces never comes out of the loop. */
  lemma {:induction false} EachNever<T>(s: seq<T>, check: T -> seq<Diagnostic>, d: Diagnostic)
    requires forall i | 0 <= i < |s| :: d !in check(s[i])
    ensures d !in Each(s, check)
    decreases |s|
  {
    if |s| > 0 {
      EachNever(s[..|s| - 1], check, d);
    }
  }

  /** Lines 777-782: a non-positive value first, then a missing terminal. */
  function ResistorChecks(r: Resistor): seq<Diagnostic> {
    (if r.resistance <= 0.0 then [NonPositiveResistance(r.name, r.resistance)] else []) +
    (if r.node1 == null || r.node2 == null then [ResistorNullNode(r.name)] else [])
  }

  /** Lines 785-790. */
  function CapacitorChecks(c: Capacitor): seq<Diagnostic> {
    (if c.capacitance <= 0.0 then [NonPositiveCapacitance(c.name, c.capacitance)] else []) +
    (if c.node1 == null || c.node2 == null then [CapacitorNullNode(c.name)] else [])
  }

  /** Lines 793-798. */
  function InductorChecks(l: Inductor): seq<Diagnostic> {
    (if l.inductance <= 0.0 then [NonPositiveInductance(l.name, l.inductance)] else []) +
    (if l.node1 == null || l.node2 == null then [InductorNullNode(l.name)] else [])
  }

  /** Lines 804-806: both terminals present and the same node. */
  function CurrentSourceChecks(s: CurrentSource): seq<Diagnostic> {
    if s.node1 != null && s.node2 != null && s.node1 == s.node2 then [CurrentSourceSameNode(s.name)] else []
  }

  /** Lines 800-802. */
  function VinChecks(vin: VoltageSource): seq<Diagnostic> {
    if vin.node1 != null && vin.node2 != null && vin.node1 == vin.node2 then [VinSameNode(vin.name)] else []
  }

  /** Lines 773-775: nodes exist but no ground name was given. */
  function GroundCheck(groundNodeNames: seq<string>, nodeCount: nat): seq<Diagnostic> {
    if |groundNodeNames| == 0 && nodeCount > 0 then [NoGround] else []
  }

  /** The component checks, in the order they run. */
  function ComponentReport(rs: seq<Resistor>, cs: seq<Capacitor>, ls: seq<Inductor>, vin: VoltageSource,
                           ss: seq<CurrentSource>): seq<Diagnostic>
  {
    Each(rs, ResistorChecks) + Each(cs, CapacitorChecks) + Each(ls, InductorChecks) +
    VinChecks(vin) + Each(ss, CurrentSourceChecks)
  }

  /** The whole report, in the order the checks run. */
  function Report(groundNodeNames: seq<string>, nodeCount: nat, rs: seq<Resistor>, cs: seq<Capacitor>,
                  ls: seq<Inductor>, vin: VoltageSource, ss: seq<CurrentSource>): seq<Diagnostic>
  {
    GroundCheck(groundNodeNames, nodeCount) + ComponentReport(rs, cs, ls, vin, ss)
  }

  /** Lines 776-783: the resistor loop. */
  method CheckResistors(rs: seq<Resistor>) returns (log: seq<Diagnostic>)
    ensures log == Each(rs, ResistorChecks)
  {
    log := [];
    for i := 0 to |rs|
      invariant log == Each(rs[..i], ResistorChecks)
    {
      assert rs[..i + 1][..i] == rs[..i];
      var res := rs[i];
      if res.resistance <= 0.0 {
        log := log + [NonPositiveResistance(res.name, res.resistance)];
      }
      if res.node1 == null || res.node2 == null {
        log := log + [ResistorNullNode(res.name)];
      }
    }
    assert rs[..|rs|] == rs;
  }

  /** Lines 784-791: the capacitor loop. */
  method CheckCapacitors(cs: seq<Capacitor>) returns (log: seq<Diagnostic>)
    ensures log == Each(cs, CapacitorChecks)
  {
    log := [];
    for i := 0 to |cs|
      invariant log == Each(cs[..i], CapacitorChecks)
    {
      assert cs[..i + 1][..i] == cs[..i];
      var cap := cs[i];
      if cap.capacitance <= 0.0 {
        log := log + [NonPositiveCapacitance(cap.name, cap.capacitance)];
      }
      if cap.node1 == null || cap.node2 == null {
        log := log + [CapacitorNullNode(cap.name)];
      }
    }
    assert cs[..|cs|] == cs;
  }

  /** Lines 792-799: the inductor loop. */
  method CheckInductors(ls: seq<Inductor>) returns (log: seq<Diagnostic>)
    ensures log == Each(ls, InductorChecks)
  {
    log := [];
    for i := 0 to |ls|
      invariant log == Each(ls[..i], InductorChecks)
    {
      assert ls[..i + 1][..i] == ls[..i];
      var ind := ls[i];
      if ind.inductance <= 0.0 {
        log := log + [NonPositiveInductance(ind.name, ind.inductance)];
      }
      if ind.node1 == null || ind.node2 == null {
        log := log + [InductorNullNode(ind.name)];
      }
    }
    assert ls[..|ls|] == ls;
  }

  /** Lines 803-807: the current-source loop. */
  method CheckCurrentSources(ss: seq<CurrentSource>) returns (log: seq<Diagnostic>)
    ensures log == Each(ss, CurrentSourceChecks)
  {
    log := [];
    for i := 0 to |ss|
      invariant log == Each(ss[..i], CurrentSourceChecks)
    {
      assert ss[..i + 1][..i] == ss[..i];
      var cs := ss[i];
      if cs.node1 != null && cs.node2 != null && cs.node1 == cs.node2 {
        log := log + [CurrentSourceSameNode(cs.name)];
      }
    }
    assert ss[..|ss|] == ss;
  }

  /**
   * `handleErrors`: runs every check over the circuit and returns the lines it
   * writes to the error stream, in order. The banner it first prints to standard
   * output is not modelled.
   */
  method HandleErrors(c: Circuit, vin: VoltageSource) returns (log: seq<Diagnostic>)
    ensures log == Report(c.groundNodeNames, |c.nodes|, c.resistors, c.capacitors, c.inductors, vin, c.currentSources)
  {
    var head := [];
    if |c.groundNodeNames| == 0 && |c.nodes| != 0 {
      head := [NoGround];
    }
    var resistorLog := CheckResistors(c.resistors);
    var capacitorLog := CheckCapacitors(c.capacitors);
    var inductorLog := CheckInductors(c.inductors);
    var vinLog := [];
    if vin.node1 != null && vin.node2 != null && vin.node1 == vin.node2 {
      vinLog := [VinSameNode(vin.name)];
    }
    var sourceLog := CheckCurrentSources(c.currentSources);
    log := head + (resistorLog + capacitorLog + inductorLog + vinLog + sourceLog);
  }

  /** The component checks never write the missing-ground line. */
  lemma ComponentsNeverNoGround(rs: seq<Resistor>, cs: seq<Capacitor>, ls: seq<Inductor>, vin: VoltageSource,
                                ss: seq<CurrentSource>)
    ensures NoGround !in ComponentReport(rs, cs, ls, vin, ss)
  {
    EachNever(rs, ResistorChecks, NoGround);
    EachNever(cs, CapacitorChecks, NoGround);
    EachNever(ls, InductorChecks, NoGround);
    EachNever(ss, CurrentSourceChecks, NoGround);
  }

  /** The missing-ground line is written exactly when there are nodes but no ground name, first and only once. */
  lemma NoGroundReported(groundNodeNames: seq<string>, nodeCount: nat, rs: seq<Resistor>, cs: seq<Capacitor>,
                         ls: seq<Inductor>, vin: VoltageSource, ss: seq<CurrentSource>)
    ensures var r := Report(groundNodeNames, nodeCount, rs, cs, ls, vin, ss);
      (NoGround in r <==> |groundNodeNames| == 0 && nodeCount > 0) &&
      (NoGround in r ==> r[0] == NoGround && NoGround !in r[1..])
  {
    ComponentsNeverNoGround(rs, cs, ls, vin, ss);
    var tail := ComponentReport(rs, cs, ls, vin, ss);
    if |groundNodeNames| == 0 && nodeCount > 0 {
      assert Report(groundNodeNames, nodeCount, rs, cs, ls, vin, ss)[1..] == tail;
    }
  }

  /** A resistor is reported for its value exactly when some resistor of that name has that non-positive value. */
  lemma ResistanceReported(rs: seq<Resistor>, name: string, value: real)
    ensures NonPositiveResistance(name, value) in Each(rs, ResistorChecks) <==>
      exists i | 0 <= i < |rs| :: rs[i].name == name && rs[i].resistance == value && value <= 0.0
  {
    EachReports(rs, ResistorChecks, NonPositiveResistance(name, value));
  }

  /** A resistor is reported for a missing terminal exactly when some resistor of that name lacks one. */
  lemma ResistorNullReported(rs: seq<Resistor>, name: string)
    ensures ResistorNullNode(name) in Each(rs, ResistorChecks) <==>
      exists i | 0 <= i < |rs| :: rs[i].name == name && (rs[i].node1 == null || rs[i].node2 == null)
  {
    EachReports(rs, ResistorChecks, ResistorNullNode(name));
  }

  /** The capacitor checks, both directions. */
  lemma CapacitorReported(cs: seq<Capacitor>, name: string, value: real)
    ensures NonPositiveCapacitance(name, value) in Each(cs, CapacitorChecks) <==>
      exists i | 0 <= i < |cs| :: cs[i].name == name && cs[i].capacitance == value && value <= 0.0
    ensures CapacitorNullNode(name) in Each(cs, CapacitorChecks) <==>
      exists i | 0 <= i < |cs| :: cs[i].name == name && (cs[i].node1 == null || cs[i].node2 == null)
  {
    EachReports(cs, CapacitorChecks, NonPositiveCapacitance(name, value));
    EachReports(cs, CapacitorChecks, CapacitorNullNode(name));
  }

  /** The inductor checks, both directions. */
  lemma InductorReported(ls: seq<Inductor>, name: string, value: real)
    ensures NonPositiveInductance(name, value) in Each(ls, InductorChecks) <==>
      exists i | 0 <= i < |ls| :: ls[i].name == name && ls[i].inductance == value && value <= 0.0
    ensures InductorNullNode(name) in Each(ls, InductorChecks) <==>
      exists i | 0 <= i < |ls| :: ls[i].name == name && (ls[i].node1 == null || ls[i].node2 == null)
  {
    EachReports(ls, InductorChecks, NonPositiveInductance(name, value));
    EachReports(ls, InductorChecks, InductorNullNode(name));
  }

  /** A current source is reported exactly when one of that name has both terminals on one node. */
  lemma CurrentSourceReported(ss: seq<CurrentSource>, name: string)
    ensures CurrentSourceSameNode(name) in Each(ss, CurrentSourceChecks) <==>
      exists i | 0 <= i < |ss| :: ss[i].name == name && ss[i].node1 != null && ss[i].node1 == ss[i].node2
  {
    EachReports(ss, CurrentSourceChecks, CurrentSourceSameNode(name));
  }

  /** A circuit whose components all pass their checks, with a ground name, yields an empty report. */
  lemma CleanCircuitSilent(groundNodeNames: seq<string>, nodeCount: nat, rs: seq<Resistor>, cs: seq<Capacitor>,
                           ls: seq<Inductor>, vin: VoltageSource, ss: seq<CurrentSource>)
    requires |groundNodeNames| > 0
    requires forall i | 0 <= i < |rs| :: rs[i].resistance > 0.0 && rs[i].node1 != null && rs[i].node2 != null
    requires forall i | 0 <= i < |cs| :: cs[i].capacitance > 0.0 && cs[i].node1 != null && cs[i].node2 != null
    requires forall i | 0 <= i < |ls| :: ls[i].inductance > 0.0 && ls[i].node1 != null && ls[i].node2 != null
    requires vin.node1 == null || vin.node1 != vin.node2
    requires forall i | 0 <= i < |ss| :: ss[i].node1 == null || ss[i].node1 != ss[i].node2
    ensures Report(groundNodeNames, nodeCount, rs, cs, ls, vin, ss) == []
  {
    EachSilent(rs, ResistorChecks);
    EachSilent(cs, CapacitorChecks);
    EachSilent(ls, InductorChecks);
    EachSilent(ss, CurrentSourceChecks);
  }

  /** No element reporting anything means an empty loop report. */
  lemma {:induction false} EachSilent<T>(s: seq<T>, check: T -> seq<Diagnostic>)
    requires forall i | 0 <= i < |s| :: check(s[i]) == []
    ensures Each(s, check) == []
    decreases |s|
  {
    if |s| > 0 {
      EachSilent(s[..|s| - 1], check);
    }
  }
}
