/** The external SRAM as the firmware sees it through `ExtMemArray`: one
    byte per array index, for every index a `uint16_t` can name.

    Faults are modelled as stuck cells: a read of a stuck cell returns the
    value it is stuck at whatever was last written there, while a write to it
    is stored but never observed. A memory with no stuck cell reads back
    exactly what was written. */
module Sram {
  import opened Common

  /** Number of array indices a 16-bit index can reach. */
  const CellCount: nat := 0x1_0000

  datatype Memory = Memory(cells: seq<Byte>, stuck: map<nat, Byte>)
  {
    predicate Valid()
    {
      |cells| == CellCount
    }

    predicate FaultFree()
    {
      stuck == map[]
    }

    /** `ExtMemArray[i]` on the right-hand side of an expression. */
    function Read(i: U16): Byte
      requires Valid()
    {
      if i in stuck then stuck[i] else cells[i]
    }

    /** `ExtMemArray[i] = v`. */
    function Write(i: U16, v: Byte): (m: Memory)
      requires Valid()
      ensures m.Valid() && m.stuck == stuck
      ensures m.Read(i) == if i in stuck then stuck[i] else v
      ensures forall j: U16 | j != i :: m.Read(j) == Read(j)
    {
      this.(cells := cells[i := v])
    }
  }
}
