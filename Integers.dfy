/** C#'s 32-bit `int`, over Dafny's unbounded integers. */
module Integers {
  const Int32Min := -0x8000_0000
  const Int32Max := 0x7FFF_FFFF

  predicate IsInt32(x: int)
  {
    Int32Min <= x <= Int32Max
  }

  /** An `int` result of unchecked C# arithmetic: the mathematical value wrapped into 32 bits. */
  function WrapInt32(x: int): (r: int)
    ensures IsInt32(r)
    ensures (r - x) % 0x1_0000_0000 == 0
    ensures IsInt32(x) ==> r == x
  {
    (x - Int32Min) % 0x1_0000_0000 + Int32Min
  }
}
