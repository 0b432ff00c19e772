/** A bitmap of priorities as the set of its bits. */
module Bitmap {

  /** Intrinsics_maxbit: the highest bit that is set. */
  ghost function MaxBit(bits: set<nat>): (m: nat)
    requires bits != {}
    ensures m in bits && forall b :: b in bits ==> b <= m
    decreases |bits|
  {
    var b :| b in bits;
    if bits == {b} then b
    else
      assert bits - {b} != {} by { assert bits == (bits - {b}) + {b}; }
      var m := MaxBit(bits - {b});
      assert forall c :: c in bits ==> c == b || c in bits - {b};
      if m > b then m else b
  }

  /** The highest bit found bit by bit. */
  method MaxBitOf(bits: set<nat>) returns (m: nat)
    requires bits != {}
    ensures m == MaxBit(bits)
  {
    var rest := bits;
    m := 0;
    while rest != {}
      invariant rest <= bits && (forall b :: b in bits - rest ==> b <= m) && (m in bits || (m == 0 && rest == bits))
      decreases |rest|
    {
      var b :| b in rest;
      ghost var was := rest;
      rest := rest - {b};
      assert forall c :: c in bits - rest ==> c in bits - was || c == b;
      if b > m || m !in bits {
        m := b;
      }
    }
    assert bits - rest == bits;
  }
}
