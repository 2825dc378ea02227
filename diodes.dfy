/**
 * Diodes (src/Diode.cpp): a discrete conduction state and the index of the
 * extra MNA branch the diode occupies, both set by the analysis.
 */
module Diodes {
  import opened Nodes

  datatype DiodeType = Normal | Zener
  datatype DiodeState = Off | ForwardOn | ReverseOn

  class Diode {
    const name: string
    const node1: Node?
    const node2: Node?
    const diodeType: DiodeType
    const forwardVoltage: real
    const zenerVoltage: real
    var currentState: DiodeState
    /** Column of the diode's branch current in the MNA system, -1 while it has none. */
    var branchIndex: int

    /** The constructor stores type and voltages as given and starts OFF with no branch. */
    constructor (name: string, n1: Node?, n2: Node?, diodeType: DiodeType, vf: real, vz: real)
      ensures this.name == name && node1 == n1 && node2 == n2
      ensures this.diodeType == diodeType && forwardVoltage == vf && zenerVoltage == vz
      ensures currentState == Off && branchIndex == -1
    {
      this.name := name;
      node1 := n1;
      node2 := n2;
      this.diodeType := diodeType;
      currentState := Off;
      forwardVoltage := vf;
      zenerVoltage := vz;
      branchIndex := -1;
    }

    function GetDiodeType(): (t: DiodeType)
      ensures t == diodeType
    {
      diodeType
    }

    function GetForwardVoltage(): (v: real)
      ensures v == forwardVoltage
    {
      forwardVoltage
    }

    function GetZenerVoltage(): (v: real)
      ensures v == zenerVoltage
    {
      zenerVoltage
    }

    /** `setState`: the getter then returns the state set; the branch index is kept. */
    method SetState(state: DiodeState)
      modifies this
      ensures currentState == state && GetState() == state
      ensures branchIndex == old(branchIndex)
    {
      currentState := state;
    }

    function GetState(): (s: DiodeState)
      reads this
      ensures s == currentState
    {
      currentState
    }

    /** `setBranchIndex`: the getter then returns the index set; the state is kept. */
    method SetBranchIndex(index: int)
      modifies this
      ensures branchIndex == index && GetBranchIndex() == index
      ensures currentState == old(currentState)
    {
      branchIndex := index;
    }

    function GetBranchIndex(): (i: int)
      reads this
      ensures i == branchIndex
    {
      branchIndex
    }

    /**
     * `addStamp` takes the matrix and right-hand side by reference and leaves them
     * as they are: its in-out parameters come back unchanged.
     */
    method AddStamp(a: seq<seq<real>>, b: seq<real>, t: real) returns (a': seq<seq<real>>, b': seq<real>)
      ensures a' == a && b' == b
    {
      a', b' := a, b;
    }
  }

}
