/** Maximum and minimum of real numbers. */
module Reals {

  function Max(a: real, b: real): real { if b > a then b else a }

  function Min(a: real, b: real): real { if b < a then b else a }
}
