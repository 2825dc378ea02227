/**
 * Independent current sources (src/CurrentSource.cpp): two pure getters.
 * The source never changes in the core, so it is a value.
 */
module CurrentSources {
  import opened Nodes
  import opened Reals

  /** Current flows into `node1` (the "to" terminal) and out of `node2` ("from"). */
  datatype CurrentSource = CurrentSource(name: string, node1: Node?, node2: Node?, value: real)
  {
    /** `getCurrent`: the source value, whatever the node voltages. */
    function GetCurrent(): (i: real)
      ensures i == value
    {
      value
    }

    /** `getVoltage`: |v1 - v2|, or 0 when a terminal is missing. */
    function GetVoltage(): (v: real)
      reads node1, node2
      ensures v >= 0.0
      ensures node1 == null || node2 == null ==> v == 0.0
      ensures node1 != null && node2 != null ==> v == Abs(node1.GetVoltage() - node2.GetVoltage())
    {
      Across(node1, node2)
    }
  }

}
