/** Slots of a ring: positions modulo its length. */
module Rings {
  lemma MulMonotone(a: int, b: int, k: nat)
    requires a <= b
    ensures a * k <= b * k
  {
  }

  /** Positions closer than the length have different slots ... */
  lemma SlotsDiffer(p: nat, q: nat, length: nat)
    requires 0 < q - p < length
    ensures p % length != q % length
  {
    var a, b := p / length, q / length;
    if a < b { MulMonotone(a + 1, b, length); } else { MulMonotone(b, a, length); }
  }

  /** ... and positions one length apart have the same. */
  lemma SlotsRepeat(p: nat, length: nat)
    requires length > 0
    ensures (p + length) % length == p % length
  {
    var a, b := p / length, (p + length) / length;
    if b <= a {
      MulMonotone(b, a, length);
    } else if b > a + 1 {
      MulMonotone(a + 2, b, length);
    }
  }
}
