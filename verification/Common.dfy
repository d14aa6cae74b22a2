/** Types that several modules share. */
module Common {
  datatype Option<+T> = None | Some(value: T)

  type u8 = x: int | 0 <= x < 0x100

  /** Both embedded controllers have a 16-bit address space. */
  const RAM_SIZE: nat := 0x10000

  type Address = a: nat | a < RAM_SIZE
}
