/** Machine integers: what a value becomes, or must already be, at a given width. */
module MachineInts {
  predicate InInt32(x: int) { -0x8000_0000 <= x < 0x8000_0000 }

  predicate InInt16(x: int) { -0x8000 <= x < 0x8000 }

  predicate InInt64(x: int) { -0x8000_0000_0000_0000 <= x < 0x8000_0000_0000_0000 }

  /** The value kept by a 32-bit two's complement word. */
  function Wrap32(x: int): (w: int)
    ensures InInt32(w)
  {
    (x + 0x8000_0000) % 0x1_0000_0000 - 0x8000_0000
  }

  function Wrap16(x: int): (w: int)
    ensures InInt16(w)
  {
    (x + 0x8000) % 0x1_0000 - 0x8000
  }

  /** A result the source stores in an int32_t; callers must show that it fits. */
  function Int32(x: int): int
    requires InInt32(x)
  {
    x
  }

  function Int16(x: int): int
    requires InInt16(x)
  {
    x
  }

  function Int64(x: int): int
    requires InInt64(x)
  {
    x
  }
}
