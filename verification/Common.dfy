/** What several components share. */
module Common {

  datatype Option<T> = None | Some(value: T)

  const U32_MAX := 0xFFFF_FFFF

  /** A cast to 32 bits keeps the low ones. */
  function AsU32(x: nat): nat { x % (U32_MAX + 1) }
}
