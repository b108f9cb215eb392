/**
 size_t: 32 bits wide on the microcontrollers that the software is built for, 64 bits on the hosts that simulate
 them. No span is longer than the largest value.
 */
module SizeT {
  datatype Target = Bits32 | Bits64
  {
    function Max(): (max: nat) {
      match this
      case Bits32 => 0xFFFF_FFFF
      case Bits64 => 0xFFFF_FFFF_FFFF_FFFF
    }

    /** a + b, which wraps around. */
    function Sum(a: nat, b: nat): (sum: nat)
      requires a <= Max() && b <= Max()
      ensures sum == if a + b <= Max() then a + b else a + b - Max() - 1
    {
      (a + b) % (Max() + 1)
    }
  }
}
