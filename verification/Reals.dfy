/** Real arithmetic shared by the models. */
module Reals {
  function Abs(v: real): real {
    if v < 0.0 then -v else v
  }
}
