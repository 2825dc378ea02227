/**
 * Inductors (src/Inductor.cpp). The analysis writes the solved branch current
 * into `current`, and `update` copies it into `prevCurrent`.
 */
module Inductors {
  import opened Nodes

  class Inductor {
    const name: string
    const node1: Node?
    const node2: Node?
    const inductance: real
    var current: real
    var prevCurrent: real

    /** An inductor on the given terminals carrying no current yet. */
    constructor (name: string, node1: Node?, node2: Node?, inductance: real)
      ensures this.name == name && this.node1 == node1 && this.node2 == node2
      ensures this.inductance == inductance && current == 0.0 && prevCurrent == 0.0
    {
      this.name := name;
      this.node1 := node1;
      this.node2 := node2;
      this.inductance := inductance;
      current := 0.0;
      prevCurrent := 0.0;
    }

    /** `getCurrent`: the stored branch current. */
    function GetCurrent(): (i: real)
      reads this
      ensures i == current
    {
      current
    }

    /** `getVoltage`: always 0 (the short circuit of DC). */
    function GetVoltage(): (v: real)
      ensures v == 0.0
    {
      0.0
    }

    /** True once the previous current has caught up with the present one. */
    predicate Settled()
      reads this
    {
      prevCurrent == current
    }

    /**
     * `update`: with both terminals present, prevCurrent := current; with a
     * terminal missing nothing changes. dt is not used and current is kept, so a
     * second call changes nothing.
     */
    method Update(dt: real)
      modifies this`prevCurrent
      ensures current == old(current)
      ensures node1 != null && node2 != null ==> prevCurrent == old(current) && Settled()
      ensures node1 == null || node2 == null ==> prevCurrent == old(prevCurrent)
      ensures old(Settled()) ==> prevCurrent == old(prevCurrent)
    {
      if node1 == null || node2 == null {
        return;
      }
      prevCurrent := current;
    }

    /** `setInductorCurrent`: the getter then returns c; prevCurrent is kept. */
    method SetInductorCurrent(c: real)
      modifies this`current
      ensures current == c && GetCurrent() == c
    {
      current := c;
    }
  }

}
