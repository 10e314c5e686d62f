/** Machine words of the driver, with the one generic result type the modules share. */
module Words {
  type byte = x: int | 0 <= x < 0x100
  type u32 = x: int | 0 <= x < 0x1_0000_0000
  type u64 = x: int | 0 <= x < 0x1_0000_0000_0000_0000

  const PAGE_SIZE: int := 4096

  datatype Option<+T> = None | Some(value: T)
}
