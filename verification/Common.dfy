/** Types that several components share. */
module Common {

  /** A token id: an unsigned 32-bit number that is only ever compared and copied. */
  type Token = nat

  type Byte = x: nat | x < 256

  datatype Option<T> = None | Some(value: T)

  function Least(a: nat, b: nat): nat { if a < b then a else b }
}
