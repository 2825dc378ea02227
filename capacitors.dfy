/**
 * Capacitors (src/Capacitor.cpp). `update` copies the present terminal voltage
 * difference into `prevVoltage`, so the capacitor is a class with that field.
 */
module Capacitors {
  import opened Nodes
  import opened Reals

  class Capacitor {
    const name: string
    const node1: Node?
    const node2: Node?
    const capacitance: real
    var prevVoltage: real

    /** A capacitor on the given terminals with no previous voltage yet. */
    constructor (name: string, node1: Node?, node2: Node?, capacitance: real)
      ensures this.name == name && this.node1 == node1 && this.node2 == node2
      ensures this.capacitance == capacitance && prevVoltage == 0.0
    {
      this.name := name;
      this.node1 := node1;
      this.node2 := node2;
      this.capacitance := capacitance;
      prevVoltage := 0.0;
    }

    /** `getCurrent`: always 0 (the open circuit of DC). */
    function GetCurrent(): (i: real)
      ensures i == 0.0
    {
      0.0
    }

    /** `getVoltage`: |v1 - v2|, or 0 when a terminal is missing. */
    function GetVoltage(): (v: real)
      reads node1, node2
      ensures v >= 0.0
      ensures node1 == null || node2 == null ==> v == 0.0
      ensures node1 != null && node2 != null ==> v == Abs(node1.GetVoltage() - node2.GetVoltage())
    {
      Across(node1, node2)
    }

    /**
     * `update`: with both terminals present, prevVoltage := v1 - v2 keeping its
     * sign; with a terminal missing nothing changes. The step dt is not used.
     */
    method Update(dt: real)
      modifies this`prevVoltage
      ensures node1 != null && node2 != null ==> prevVoltage == node1.GetVoltage() - node2.GetVoltage()
      ensures node1 == null || node2 == null ==> prevVoltage == old(prevVoltage)
      ensures node1 != null && node2 != null ==> Abs(prevVoltage) == GetVoltage()
    {
      if node1 == null || node2 == null {
        return;
      }
      prevVoltage := node1.GetVoltage() - node2.GetVoltage();
    }
  }

}
