/** The unsigned words of the program, as numbers. */
module Unsigned {

  const TWO64: nat := 0x1_0000_0000_0000_0000

  type uint32 = x: nat | x < 0x1_0000_0000

  type uint64 = x: nat | x < 0x1_0000_0000_0000_0000
}
