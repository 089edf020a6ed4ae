/** The ring size that mpscq_init chooses. */
module MpscqSize {

  /** next_pow2_u32, on 32-bit words. */
  function NextPow2(v: bv32): bv32 {
    if v == 0 then 1
    else
      var a := v - 1;
      var b := a | (a >> 1);
      var c := b | (b >> 2);
      var d := c | (c >> 4);
      var e := d | (d >> 8);
      var f := e | (e >> 16);
      f + 1
  }

  predicate IsPow2(x: bv32) {
    x != 0 && x & (x - 1) == 0
  }

  /** The least power of two that is not below the argument; past the largest one the sum wraps to 0. */
  lemma NextPow2Least(v: bv32)
    ensures v > 0x8000_0000 <==> NextPow2(v) == 0
    ensures v <= 0x8000_0000 ==> IsPow2(NextPow2(v)) && v <= NextPow2(v)
    ensures forall w: bv32 :: IsPow2(w) && v <= w ==> NextPow2(v) <= w
  {
  }
}
