/**
 * Independent voltage sources (src/VoltageSource.cpp). The analysis writes the
 * solved branch current into `current` and appends it to a history.
 */
module VoltageSources {
  import opened Nodes

  class VoltageSource {
    const name: string
    const node1: Node?
    const node2: Node?
    /** The source voltage, positive terminal node1. */
    const value: real
    var current: real
    var currentHistory: seq<Point>
    var dcSweepCurrentHistory: seq<Point>

    /** A source on the given terminals carrying no current and with no history. */
    constructor (name: string, node1: Node?, node2: Node?, value: real)
      ensures this.name == name && this.node1 == node1 && this.node2 == node2 && this.value == value
      ensures current == 0.0 && currentHistory == [] && dcSweepCurrentHistory == []
    {
      this.name := name;
      this.node1 := node1;
      this.node2 := node2;
      this.value := value;
      current := 0.0;
      currentHistory := [];
      dcSweepCurrentHistory := [];
    }

    /** `getCurrent`: the stored branch current. */
    function GetCurrent(): (i: real)
      reads this
      ensures i == current
    {
      current
    }

    /** `setCurrent`: the getter then returns c; the histories are kept. */
    method SetCurrent(c: real)
      modifies this`current
      ensures current == c && GetCurrent() == c
    {
      current := c;
    }

    /** `getVoltage`: the source value with its sign, no absolute value taken. */
    function GetVoltage(): (v: real)
      ensures v == value
    {
      value
    }

    /** `addCurrentHistoryPoint`: one point appended at the end. */
    method AddCurrentHistoryPoint(time: real, cur: real)
      modifies this`currentHistory
      ensures currentHistory == old(currentHistory) + [(time, cur)]
    {
      currentHistory := currentHistory + [(time, cur)];
    }

    /** `clearHistory`: both histories emptied, the current kept. */
    method ClearHistory()
      modifies this`currentHistory, this`dcSweepCurrentHistory
      ensures currentHistory == [] && dcSweepCurrentHistory == []
      ensures current == old(current)
    {
      currentHistory := [];
      dcSweepCurrentHistory := [];
    }
  }

}
