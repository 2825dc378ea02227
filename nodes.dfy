/**
 * Circuit nodes (src/Node.cpp; the same class, without histories, at main.cpp:26-55).
 *
 * A node carries a name, a number drawn from a process-wide counter, a voltage,
 * a ground flag and four histories of (x, y) points. The counter `Node::nextNum`
 * is modelled as a `NodeNumbering` object that every constructor call bumps.
 */
module Nodes {
  import opened Reals

  /** One recorded point: (time, value) or (sweep value, reading). */
  type Point = (real, real)

  /** The process-wide counter `Node::nextNum`. */
  class NodeNumbering {
    var nextNum: int

    constructor ()
      ensures nextNum == 0
    {
      nextNum := 0;
    }
  }

  class Node {
    var name: string
    /** Assigned once, from the counter, when the node is constructed. */
    const num: int
    var voltage: real
    var isGround: bool
    var voltageHistory: seq<Point>
    var dcSweepHistory: seq<Point>
    var acSweepHistory: seq<Point>
    var phaseSweepHistory: seq<Point>

    /** A ground node always stores voltage 0. */
    ghost predicate Valid()
      reads this
    {
      isGround ==> voltage == 0.0
    }

    /** `Node()`: empty name, the next number, voltage 0, not ground, no history. */
    constructor (numbering: NodeNumbering)
      modifies numbering
      ensures num == old(numbering.nextNum) && numbering.nextNum == num + 1
      ensures name == "" && voltage == 0.0 && !isGround
      ensures voltageHistory == [] && dcSweepHistory == [] && acSweepHistory == [] && phaseSweepHistory == []
      ensures Valid()
    {
      name := "";
      num := numbering.nextNum;
      voltage := 0.0;
      isGround := false;
      voltageHistory := [];
      dcSweepHistory := [];
      acSweepHistory := [];
      phaseSweepHistory := [];
      numbering.nextNum := numbering.nextNum + 1;
    }

    /** `getVoltage`: 0 on a ground node whatever is stored, the stored voltage otherwise. */
    function GetVoltage(): (v: real)
      reads this`isGround, this`voltage
      ensures isGround ==> v == 0.0
      ensures !isGround ==> v == voltage
    {
      if isGround then 0.0 else voltage
    }

    /** `setVoltage`: a ground node keeps 0, any other node stores v. */
    method SetVoltage(v: real)
      modifies this`voltage
      ensures voltage == (if isGround then 0.0 else v)
      ensures Valid() && GetVoltage() == (if isGround then 0.0 else v)
    {
      if isGround {
        voltage := 0.0;
      } else {
        voltage := v;
      }
    }

    /** `setGround`: grounding zeroes the voltage, un-grounding keeps what is stored. */
    method SetGround(groundStatus: bool)
      modifies this`isGround, this`voltage
      ensures isGround == groundStatus
      ensures voltage == (if groundStatus then 0.0 else old(voltage))
      ensures Valid()
    {
      isGround := groundStatus;
      if isGround {
        voltage := 0.0;
      }
    }

    /** `addVoltageHistoryPoint`: one point appended at the end of the transient history. */
    method AddVoltageHistoryPoint(time: real, vol: real)
      modifies this`voltageHistory
      ensures voltageHistory == old(voltageHistory) + [(time, vol)]
    {
      voltageHistory := voltageHistory + [(time, vol)];
    }

    /** `clearHistory`: all four histories emptied; voltage and ground flag untouched. */
    method ClearHistory()
      modifies this`voltageHistory, this`dcSweepHistory, this`acSweepHistory, this`phaseSweepHistory
      ensures voltageHistory == [] && dcSweepHistory == [] && acSweepHistory == [] && phaseSweepHistory == []
    {
      voltageHistory := [];
      dcSweepHistory := [];
      acSweepHistory := [];
      phaseSweepHistory := [];
    }
  }

  /**
   * |v1 - v2| across two terminals, or 0 when either terminal is missing: the
   * `getVoltage` of resistors, capacitors and current sources.
   */
  function Across(n1: Node?, n2: Node?): (v: real)
    reads n1, n2
    ensures v >= 0.0
    ensures n1 == null || n2 == null ==> v == 0.0
    ensures n1 != null && n2 != null ==> v == n1.GetVoltage() - n2.GetVoltage() || v == n2.GetVoltage() - n1.GetVoltage()
  {
    if n1 == null || n2 == null then 0.0 else Abs(n1.GetVoltage() - n2.GetVoltage())
  }

  /** Swapping the terminals does not change the reading, and a terminal against itself reads 0. */
  lemma AcrossSymmetric(n1: Node?, n2: Node?)
    ensures Across(n1, n2) == Across(n2, n1)
    ensures Across(n1, n1) == 0.0
  {
  }

}
