/**
 * Resistors (src/Resistor.cpp): two pure getters over the terminal voltages.
 * The resistor never changes in the core, so it is a value.
 */
module Resistors {
  import opened Nodes
  import opened Reals

  /** What `getCurrent` returns: a finite amount, or the infinity it uses for R = 0. */
  datatype Reading = Finite(value: real) | Infinite

  datatype Resistor = Resistor(name: string, node1: Node?, node2: Node?, resistance: real)
  {
    /**
     * `getCurrent`: infinity when R = 0 (tested before the terminals), 0 when a
     * terminal is missing, otherwise |v1 - v2| / R.
     */
    function GetCurrent(): (c: Reading)
      reads node1, node2
      ensures c.Infinite? <==> resistance == 0.0
      ensures c.Finite? && (node1 == null || node2 == null) ==> c.value == 0.0
      ensures c.Finite? && resistance > 0.0 ==> c.value >= 0.0
      ensures resistance != 0.0 && node1 != null && node2 != null ==>
                c == Finite(Abs(node1.GetVoltage() - node2.GetVoltage()) / resistance)
    {
      if resistance == 0.0 then Infinite
      else if node1 == null || node2 == null then Finite(0.0)
      else Finite(Abs(node1.GetVoltage() - node2.GetVoltage()) / resistance)
    }

    /** `getVoltage`: |v1 - v2|, or 0 when a terminal is missing. */
    function GetVoltage(): (v: real)
      reads node1, node2
      ensures v >= 0.0
      ensures node1 == null || node2 == null ==> v == 0.0
      ensures node1 != null && node2 != null ==> v == Abs(node1.GetVoltage() - node2.GetVoltage())
    {
      Across(node1, node2)
    }
  }

  /** Ohm's law between the two getters: current times resistance is the voltage. */
  lemma OhmsLaw(r: Resistor)
    requires r.resistance != 0.0 && r.node1 != null && r.node2 != null
    ensures r.GetCurrent().Finite? && r.GetCurrent().value * r.resistance == r.GetVoltage()
  {
    var d := Abs(r.node1.GetVoltage() - r.node2.GetVoltage());
    assert r.GetCurrent().value == d / r.resistance;
    assert d / r.resistance * r.resistance == d;
  }

}
