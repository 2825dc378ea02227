/** A value that may be absent: the model's stand-in for a null result. */
module Options {

  datatype Option<+T> = None | Some(value: T)

}

/** Real-number helpers shared by the solver and the components. */
module Reals {

  /** `fabs` on exact reals. */
  function Abs(r: real): (a: real)
    ensures a >= 0.0 && (a == r || a == -r)
  {
    if r < 0.0 then -r else r
  }

}

/** Dense matrices and vectors of exact reals (`vector<vector<double>>`, `vector<double>`). */
module Matrices {

  type Matrix = seq<seq<real>>
  type Vector = seq<real>

}
