/**
 * The stages of the DC matrix fill inside `main` (main.cpp:487-574), on values.
 *
 * Every component reaches the fill as a `Stamp`: where each terminal lands and
 * the component's value. The stages run in the source's order: resistors as
 * conductances, then the VIN row replacement, then current-source injection into
 * b, then inductor row replacement. Each stage is also characterised by an
 * order-free reference (a sum of per-component contributions, or "the last
 * replacement wins"), and the lemmas connect the two.
 */
module Mna {
  import opened Options
  import opened Matrices

  /** Where a terminal lands: no node, a ground node, or row/column `index`. */
  datatype Pin = Absent | Grounded | At(index: int)

  /** One two-terminal component as the fill sees it. */
  datatype Stamp = Stamp(p1: Pin, p2: Pin, value: real)

  predicate Square(a: Matrix, n: nat) {
    |a| == n && forall r | 0 <= r < n :: |a[r]| == n
  }

  predicate PinIn(p: Pin, n: nat) {
    p.At? ==> 0 <= p.index < n
  }

  predicate StampIn(s: Stamp, n: nat) {
    PinIn(s.p1, n) && PinIn(s.p2, n)
  }

  predicate StampsIn(ss: seq<Stamp>, n: nat) {
    forall k | 0 <= k < |ss| :: StampIn(ss[k], n)
  }

  /** `vector<vector<double>> A(n, vector<double>(n, 0.0))`. */
  function ZeroMatrix(n: nat): (a: Matrix)
    ensures Square(a, n) && forall i, j | 0 <= i < n && 0 <= j < n :: a[i][j] == 0.0
  {
    seq(n, _ => seq(n, _ => 0.0))
  }

  /** `vector<double> b(n, 0.0)`. */
  function ZeroVector(n: nat): (b: Vector)
    ensures |b| == n && forall i | 0 <= i < n :: b[i] == 0.0
  {
    seq(n, _ => 0.0)
  }

  /** A row cleared to 0 with 1 on the diagonal: the row of the equation V_i = b_i. */
  function UnitRow(n: nat, i: nat): (row: Vector)
    requires i < n
    ensures |row| == n && row[i] == 1.0 && forall j | 0 <= j < n && j != i :: row[j] == 0.0
  {
    seq(n, j => if j == i then 1.0 else 0.0)
  }

  /** `A[i][j] += v`. */
  function AddAt(a: Matrix, i: nat, j: nat, v: real, n: nat): (a': Matrix)
    requires Square(a, n) && i < n && j < n
    ensures Square(a', n)
    ensures forall r, k | 0 <= r < n && 0 <= k < n ::
      a'[r][k] == a[r][k] + (if r == i && k == j then v else 0.0)
  {
    a[i := a[i][j := a[i][j] + v]]
  }

  // ---------------------------------------------------------------- resistors

  /** One resistor's stamp (main.cpp:495-515): skipped on a missing terminal or zero resistance. */
  function StampResistor(a: Matrix, s: Stamp, n: nat): (a': Matrix)
    requires Square(a, n) && StampIn(s, n)
    ensures Square(a', n)
  {
    if s.p1.Absent? || s.p2.Absent? || s.value == 0.0 then a
    else
      var g := 1.0 / s.value;
      match (s.p1, s.p2)
      case (At(i), At(j)) => AddAt(AddAt(AddAt(AddAt(a, i, i, g, n), j, j, g, n), i, j, -g, n), j, i, -g, n)
      case (Grounded, At(j)) => AddAt(a, j, j, g, n)
      case (At(i), Grounded) => AddAt(a, i, i, g, n)
      case _ => a
  }

  /** The resistor loop: every resistor stamped, in list order. */
  function StampResistors(a: Matrix, ss: seq<Stamp>, n: nat): (a': Matrix)
    requires Square(a, n) && StampsIn(ss, n)
    ensures Square(a', n)
    decreases |ss|
  {
    if |ss| == 0 then a
    else StampResistor(StampResistors(a, ss[..|ss| - 1], n), ss[|ss| - 1], n)
  }

  /** +1 where the current enters the network at row i, -1 where it leaves, 0 otherwise. */
  function Incidence(s: Stamp, i: int): int {
    (if s.p1 == At(i) then 1 else 0) - (if s.p2 == At(i) then 1 else 0)
  }

  /**
   * The conductance a resistor contributes to cell (i, j): g times the outer
   * product of its incidence vector with itself (each product is -1, 0 or 1),
   * where ground rows are absent.
   */
  function Conductance(s: Stamp, i: int, j: int): real {
    if s.p1.Absent? || s.p2.Absent? || s.value == 0.0 then 0.0
    else
      var sign := Incidence(s, i) * Incidence(s, j);
      if sign == 1 then 1.0 / s.value else if sign == -1 then -(1.0 / s.value) else 0.0
  }

  /** The conductance matrix entry (i, j): the sum over all resistors. */
  function ConductanceSum(ss: seq<Stamp>, i: int, j: int): real
    decreases |ss|
  {
    if |ss| == 0 then 0.0 else ConductanceSum(ss[..|ss| - 1], i, j) + Conductance(ss[|ss| - 1], i, j)
  }

  /** One resistor's in-place updates add exactly its conductance to every cell. */
  lemma StampResistorCell(a: Matrix, s: Stamp, n: nat, i: nat, j: nat)
    requires Square(a, n) && StampIn(s, n) && i < n && j < n
    ensures StampResistor(a, s, n)[i][j] == a[i][j] + Conductance(s, i, j)
  {
    if !(s.p1.Absent? || s.p2.Absent? || s.value == 0.0) {
      var g := 1.0 / s.value;
      match (s.p1, s.p2)
      case (At(p), At(q)) =>
        assert StampResistor(a, s, n) == AddAt(AddAt(AddAt(AddAt(a, p, p, g, n), q, q, g, n), p, q, -g, n), q, p, -g, n);
        BetweenNodesCell(a, p, q, g, n, i, j);
        assert Incidence(s, i) == (if i == p then 1 else 0) - (if i == q then 1 else 0);
        assert Incidence(s, j) == (if j == p then 1 else 0) - (if j == q then 1 else 0);
      case (Grounded, At(q)) =>
        assert StampResistor(a, s, n) == AddAt(a, q, q, g, n);
        assert Incidence(s, i) == (if i == q then -1 else 0);
      case (At(p), Grounded) =>
        assert StampResistor(a, s, n) == AddAt(a, p, p, g, n);
        assert Incidence(s, i) == (if i == p then 1 else 0);
      case _ =>
    }
  }

  /** The four updates of a resistor between rows p and q, cell by cell. */
  lemma BetweenNodesCell(a: Matrix, p: nat, q: nat, g: real, n: nat, i: nat, j: nat)
    requires Square(a, n) && p < n && q < n && i < n && j < n
    ensures var sign := ((if i == p then 1 else 0) - (if i == q then 1 else 0)) *
                        ((if j == p then 1 else 0) - (if j == q then 1 else 0));
      AddAt(AddAt(AddAt(AddAt(a, p, p, g, n), q, q, g, n), p, q, -g, n), q, p, -g, n)[i][j] ==
      a[i][j] + (if sign == 1 then g else if sign == -1 then -g else 0.0)
  {
    var a4 := AddAt(AddAt(AddAt(AddAt(a, p, p, g, n), q, q, g, n), p, q, -g, n), q, p, -g, n);
    assert a4[i][j] == a[i][j] + (if i == p && j == p then g else 0.0) + (if i == q && j == q then g else 0.0)
                                + (if i == p && j == q then -g else 0.0) + (if i == q && j == p then -g else 0.0);
    if p == q {
    } else if i == p {
      if j == p {} else if j == q {} else {}
    } else if i == q {
      if j == p {} else if j == q {} else {}
    }
  }

  /**
   * After the resistor loop every cell holds the sum of the conductances of all
   * resistors, so the result does not depend on the order of the resistor list.
   */
  lemma {:induction false} StampResistorsSum(a: Matrix, ss: seq<Stamp>, n: nat, i: nat, j: nat)
    requires Square(a, n) && StampsIn(ss, n) && i < n && j < n
    ensures StampResistors(a, ss, n)[i][j] == a[i][j] + ConductanceSum(ss, i, j)
    decreases |ss|
  {
    if |ss| > 0 {
      var prefix := ss[..|ss| - 1];
      assert StampsIn(prefix, n);
      StampResistorsSum(a, prefix, n, i, j);
      StampResistorCell(StampResistors(a, prefix, n), ss[|ss| - 1], n, i, j);
    }
  }

  lemma {:induction false} ConductanceSumSymmetric(ss: seq<Stamp>, i: int, j: int)
    ensures ConductanceSum(ss, i, j) == ConductanceSum(ss, j, i)
    decreases |ss|
  {
    if |ss| > 0 {
      ConductanceSumSymmetric(ss[..|ss| - 1], i, j);
      var s := ss[|ss| - 1];
      assert Conductance(s, i, j) == Conductance(s, j, i) by {
        assert Incidence(s, i) * Incidence(s, j) == Incidence(s, j) * Incidence(s, i);
      }
    }
  }

  predicate Symmetric(a: Matrix, n: nat)
    requires Square(a, n)
  {
    forall i, j | 0 <= i < n && 0 <= j < n :: a[i][j] == a[j][i]
  }

  /** Stamping resistors into the zero matrix gives a symmetric matrix. */
  lemma ResistorStageSymmetric(ss: seq<Stamp>, n: nat)
    requires StampsIn(ss, n)
    ensures Symmetric(StampResistors(ZeroMatrix(n), ss, n), n)
  {
    var a := StampResistors(ZeroMatrix(n), ss, n);
    forall i, j | 0 <= i < n && 0 <= j < n ensures a[i][j] == a[j][i] {
      StampResistorsSum(ZeroMatrix(n), ss, n, i, j);
      StampResistorsSum(ZeroMatrix(n), ss, n, j, i);
      ConductanceSumSymmetric(ss, i, j);
    }
  }

  // ---------------------------------------------------------------- VIN

  /**
   * The VIN stage (main.cpp:521-538): with exactly one terminal grounded, the
   * other terminal's row becomes a unit row and its b entry the source value,
   * negated when the positive terminal is the grounded one.
   */
  function StampVin(a: Matrix, b: Vector, s: Stamp, n: nat): (r: (Matrix, Vector))
    requires Square(a, n) && |b| == n && StampIn(s, n)
    ensures Square(r.0, n) && |r.1| == n
  {
    match (s.p1, s.p2)
    case (Grounded, At(j)) => (a[j := UnitRow(n, j)], b[j := -s.value])
    case (At(i), Grounded) => (a[i := UnitRow(n, i)], b[i := s.value])
    case _ => (a, b)
  }

  /** The row VIN fixes, and the value it fixes there. */
  function VinRow(s: Stamp): Option<(int, real)> {
    match (s.p1, s.p2)
    case (Grounded, At(j)) => Some((j, -s.value))
    case (At(i), Grounded) => Some((i, s.value))
    case _ => None
  }

  /** VIN replaces exactly the row it fixes; a floating, grounded or unconnected VIN changes nothing. */
  lemma StampVinEffect(a: Matrix, b: Vector, s: Stamp, n: nat)
    requires Square(a, n) && |b| == n && StampIn(s, n)
    ensures var r := StampVin(a, b, s, n);
      match VinRow(s)
      case None => r == (a, b)
      case Some((k, v)) =>
        0 <= k < n && r.0[k] == UnitRow(n, k) && r.1[k] == v &&
        forall m | 0 <= m < n && m != k :: r.0[m] == a[m] && r.1[m] == b[m]
  {
  }

  // ---------------------------------------------------------------- current sources

  /** One current source (main.cpp:543-552): +value into node1's row, -value out of node2's. */
  function Inject(b: Vector, s: Stamp, n: nat): (b': Vector)
    requires |b| == n && StampIn(s, n)
    ensures |b'| == n
  {
    if s.p1.Absent? || s.p2.Absent? then b
    else
      var b1 := if s.p1.At? then b[s.p1.index := b[s.p1.index] + s.value] else b;
      if s.p2.At? then b1[s.p2.index := b1[s.p2.index] - s.value] else b1
  }

  /** The current-source loop, in list order. */
  function InjectAll(b: Vector, ss: seq<Stamp>, n: nat): (b': Vector)
    requires |b| == n && StampsIn(ss, n)
    ensures |b'| == n
    decreases |ss|
  {
    if |ss| == 0 then b else Inject(InjectAll(b, ss[..|ss| - 1], n), ss[|ss| - 1], n)
  }

  /** The net current all current sources inject into row i. */
  function InjectionSum(ss: seq<Stamp>, i: int): real
    decreases |ss|
  {
    if |ss| == 0 then 0.0
    else
      var s := ss[|ss| - 1];
      InjectionSum(ss[..|ss| - 1], i) +
      (if s.p1.Absent? || s.p2.Absent? then 0.0 else (Incidence(s, i) as real) * s.value)
  }

  /** Every b entry gains the net injected current, whatever the order of the sources. */
  lemma {:induction false} InjectAllSum(b: Vector, ss: seq<Stamp>, n: nat, i: nat)
    requires |b| == n && StampsIn(ss, n) && i < n
    ensures InjectAll(b, ss, n)[i] == b[i] + InjectionSum(ss, i)
    decreases |ss|
  {
    if |ss| > 0 {
      var prefix := ss[..|ss| - 1];
      assert StampsIn(prefix, n);
      InjectAllSum(b, prefix, n, i);
      var s := ss[|ss| - 1];
      if !(s.p1.Absent? || s.p2.Absent?) {
        var inc := Incidence(s, i);
        assert inc == 1 || inc == 0 || inc == -1;
        assert (inc as real) * s.value == (if inc == 1 then s.value else if inc == -1 then -s.value else 0.0);
      }
    }
  }

  // ---------------------------------------------------------------- inductors

  /** An inductor from a ground node to row k shorts row k. */
  predicate Shorts(s: Stamp, k: int) {
    (s.p1 == Grounded && s.p2 == At(k)) || (s.p1 == At(k) && s.p2 == Grounded)
  }

  /** One inductor (main.cpp:558-573): a shorted row becomes V_k = 0. */
  function Short(a: Matrix, b: Vector, s: Stamp, n: nat): (r: (Matrix, Vector))
    requires Square(a, n) && |b| == n && StampIn(s, n)
    ensures Square(r.0, n) && |r.1| == n
  {
    match (s.p1, s.p2)
    case (Grounded, At(j)) => (a[j := UnitRow(n, j)], b[j := 0.0])
    case (At(i), Grounded) => (a[i := UnitRow(n, i)], b[i := 0.0])
    case _ => (a, b)
  }

  /** The inductor loop, in list order. */
  function ShortAll(a: Matrix, b: Vector, ss: seq<Stamp>, n: nat): (r: (Matrix, Vector))
    requires Square(a, n) && |b| == n && StampsIn(ss, n)
    ensures Square(r.0, n) && |r.1| == n
    decreases |ss|
  {
    if |ss| == 0 then (a, b)
    else
      var r := ShortAll(a, b, ss[..|ss| - 1], n);
      Short(r.0, r.1, ss[|ss| - 1], n)
  }

  /**
   * After the inductor loop, row k is the unit row with b = 0 when some inductor
   * shorts it, and is untouched otherwise.
   */
  lemma {:induction false} ShortAllRow(a: Matrix, b: Vector, ss: seq<Stamp>, n: nat, k: nat)
    requires Square(a, n) && |b| == n && StampsIn(ss, n) && k < n
    ensures var r := ShortAll(a, b, ss, n);
      if exists m | 0 <= m < |ss| :: Shorts(ss[m], k) then r.0[k] == UnitRow(n, k) && r.1[k] == 0.0
      else r.0[k] == a[k] && r.1[k] == b[k]
    decreases |ss|
  {
    if |ss| > 0 {
      var prefix := ss[..|ss| - 1];
      assert StampsIn(prefix, n);
      ShortAllRow(a, b, prefix, n, k);
      var s := ss[|ss| - 1];
      if exists m | 0 <= m < |ss| :: Shorts(ss[m], k) {
        if !Shorts(s, k) {
          var m :| 0 <= m < |ss| && Shorts(ss[m], k);
          assert prefix[m] == ss[m];
        }
      } else {
        assert forall m | 0 <= m < |prefix| :: prefix[m] == ss[m];
        assert !Shorts(s, k);
      }
    }
  }

  // ---------------------------------------------------------------- the whole fill

  /** The system the fill leaves behind: resistors, VIN, current sources, inductors. */
  function Fill(n: nat, rs: seq<Stamp>, vin: Stamp, cs: seq<Stamp>, ls: seq<Stamp>): (r: (Matrix, Vector))
    requires StampsIn(rs, n) && StampIn(vin, n) && StampsIn(cs, n) && StampsIn(ls, n)
    ensures Square(r.0, n) && |r.1| == n
  {
    var a1 := StampResistors(ZeroMatrix(n), rs, n);
    var v := StampVin(a1, ZeroVector(n), vin, n);
    var b3 := InjectAll(v.1, cs, n);
    ShortAll(v.0, b3, ls, n)
  }

  /**
   * Row by row, the filled system is: V_k = 0 where an inductor shorts row k;
   * otherwise V_k = ±VIN plus the injected current where VIN fixes row k (the
   * injection lands on the replaced entry); otherwise the conductance row with
   * the injected current on the right.
   */
  lemma FillRow(n: nat, rs: seq<Stamp>, vin: Stamp, cs: seq<Stamp>, ls: seq<Stamp>, k: nat)
    requires StampsIn(rs, n) && StampIn(vin, n) && StampsIn(cs, n) && StampsIn(ls, n) && k < n
    ensures var r := Fill(n, rs, vin, cs, ls);
      if exists m | 0 <= m < |ls| :: Shorts(ls[m], k) then
        r.0[k] == UnitRow(n, k) && r.1[k] == 0.0
      else if VinRow(vin).Some? && VinRow(vin).value.0 == k then
        r.0[k] == UnitRow(n, k) && r.1[k] == VinRow(vin).value.1 + InjectionSum(cs, k)
      else
        (forall j | 0 <= j < n :: r.0[k][j] == ConductanceSum(rs, k, j)) &&
        r.1[k] == InjectionSum(cs, k)
  {
    var a1 := StampResistors(ZeroMatrix(n), rs, n);
    var v := StampVin(a1, ZeroVector(n), vin, n);
    var b3 := InjectAll(v.1, cs, n);
    StampVinEffect(a1, ZeroVector(n), vin, n);
    InjectAllSum(v.1, cs, n, k);
    ShortAllRow(v.0, b3, ls, n, k);
    forall j | 0 <= j < n {
      StampResistorsSum(ZeroMatrix(n), rs, n, k, j);
    }
  }
}
