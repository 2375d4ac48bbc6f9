/** Helpers shared by the modules. */
module Common {

  datatype Option<T> = None | Some(value: T)

  const TWO_32: int := 0x1_0000_0000

  /** Conversion of a wider integer to a 32-bit int. */
  function ToInt32(x: int): int {
    var m := x % TWO_32;
    if m < TWO_32 / 2 then m else m - TWO_32
  }
}
