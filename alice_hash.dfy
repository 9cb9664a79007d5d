/**
 * The hash functions of the ALICE autonomous scheduler
 * (alice_f_real_hash and alice_f_real_hash5 of os/net/mac/tsch/tsch-schedule.c):
 * Thomas Wang's 32-bit integer mix, reduced modulo a slotframe size or a
 * number of channel offsets. All arithmetic is on 32-bit words, so additions,
 * left shifts and the multiplication wrap around; bv32 gives exactly that.
 */
module AliceHash {
  import opened TschTypes

  /** The mix of alice_f_real_hash, on a 32-bit word. */
  function Mix(value: bv32): bv32 {
    var a := (value ^ 61) ^ (value >> 16);
    var a := a + (a << 3);
    var a := a ^ (a >> 4);
    var a := a * 0x27d4eb2d;
    a ^ (a >> 15)
  }

  /** The shorter mix of alice_f_real_hash5. */
  function Mix5(value: bv32): bv32 {
    (((value + (value >> 16)) ^ (value >> 9)) ^ (value << 3)) ^ (value >> 5)
  }

  /**
   * alice_f_real_hash: the mixed value reduced modulo mod (a division by zero
   * in C, so mod must be positive), cast to 16 bits. The result is a valid
   * index below mod, e.g. a timeslot of a slotframe of that size.
   */
  function RealHash(value: uint32, mod: uint16): (r: uint16)
    requires mod > 0
    ensures r < mod
  {
    Reduce(Mix(value as bv32), mod)
  }

  /** alice_f_real_hash5, with the same range. */
  function RealHash5(value: uint32, mod: uint16): (r: uint16)
    requires mod > 0
    ensures r < mod
  {
    Reduce(Mix5(value as bv32), mod)
  }

  /**
   * The reduction both hashes end with: the unsigned 32-bit remainder, which
   * is below mod and so fits the 16-bit result unchanged.
   */
  function Reduce(a: bv32, mod: uint16): (r: uint16)
    requires mod > 0
    ensures r < mod
  {
    (a as int) % mod
  }
}
