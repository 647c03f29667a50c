/** What every component shares: the type of an optional result, and the widths of machine integers. */
module Wrappers {
  datatype Option<+T> = None | Some(value: T)

  const TWO_TO_THE_32 := 0x1_0000_0000
  const TWO_TO_THE_63 := 0x8000_0000_0000_0000
  const TWO_TO_THE_64 := 0x1_0000_0000_0000_0000
}
