/**
 Why masking selects a bucket: AtomicHashMap takes `key & (TableSize - 1)` and its template guard admits
 exactly the sizes with `TableSize & (TableSize - 1) == 0`.  Unsigned words are natural numbers here and
 `And` works on their binary digits.
 */
module Masks {
  import opened Rings

  function And(a: nat, b: nat): (r: nat)
    decreases a
  {
    if a == 0 then 0 else 2 * And(a / 2, b / 2) + if a % 2 == 1 && b % 2 == 1 then 1 else 0
  }

  function Pow2(k: nat): (p: nat)
    ensures p > 0
  {
    if k == 0 then 1 else 2 * Pow2(k - 1)
  }

  lemma {:induction false} AndSelf(a: nat)
    ensures And(a, a) == a
    decreases a
  {
    if a > 0 {
      AndSelf(a / 2);
    }
  }

  lemma {:induction false} AndPow2(a: nat, k: nat)
    ensures And(a, Pow2(k) - 1) == a % Pow2(k)
    decreases k
  {
    if k == 0 {
      AndZero(a);
    } else {
      AndPow2(a / 2, k - 1);
      var p := Pow2(k - 1);
      assert (2 * p - 1) / 2 == p - 1 && (2 * p - 1) % 2 == 1;
      HalfModulo(a, p);
      if a == 0 { assert 0 % (2 * p) == 0; }
    }
  }

  lemma {:induction false} AndZero(a: nat)
    ensures And(a, 0) == 0
    decreases a
  {
    if a > 0 {
      AndZero(a / 2);
    }
  }

  lemma HalfModulo(a: nat, p: nat)
    requires p > 0
    ensures a % (2 * p) == 2 * (a / 2 % p) + a % 2
  {
    var h := a / 2;
    var q, r := h / p, h % p;
    assert a == 2 * (q * p + r) + a % 2;
    ModuloUnique(a, 2 * p, q, 2 * r + a % 2);
  }

  lemma ModuloUnique(a: nat, d: nat, q: nat, r: nat)
    requires d > 0 && r < d && a == q * d + r
    ensures a % d == r
  {
    var q' := a / d;
    if q < q' {
      MulMonotone(q + 1, q', d);
    } else if q' < q {
      MulMonotone(q' + 1, q, d);
    }
  }

  /** The guard admits exactly the powers of two (and zero, for which there is no table): only these ... */
  lemma {:induction false} GuardIsPow2(n: nat) returns (k: nat)
    requires n > 0 && And(n, n - 1) == 0
    ensures n == Pow2(k)
    decreases n
  {
    k := 0;
    if n % 2 == 0 {
      assert (n - 1) / 2 == n / 2 - 1;
      var j := GuardIsPow2(n / 2);
      k := j + 1;
    } else {
      AndSelf(n / 2);
    }
  }

  /** ... and all of these. */
  lemma Pow2IsAdmitted(k: nat)
    ensures And(Pow2(k), Pow2(k) - 1) == 0
  {
    AndPow2(Pow2(k), k);
    ModuloUnique(Pow2(k), Pow2(k), 1, 0);
  }

  /** With an admitted size, masking is the remainder, so every key has one bucket in range. */
  lemma MaskIsModulo(key: nat, size: nat)
    requires size > 0 && And(size, size - 1) == 0
    ensures And(key, size - 1) == key % size
  {
    var k := GuardIsPow2(size);
    AndPow2(key, k);
  }
}
