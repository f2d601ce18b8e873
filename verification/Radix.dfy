/** Powers and digits, the arithmetic of a radix tree whose fan-out is symbolic. */
module Radix {
  function Pow(b: nat, k: nat): (r: nat)
    ensures b > 0 ==> r > 0
  {
    if k == 0 then 1 else b * Pow(b, k - 1)
  }

  /** (index >> (k * P_L2_BITS)) & (P_L2_SIZE - 1), for a fan-out of b. */
  function Digit(b: nat, k: nat, index: nat): (d: nat)
    requires b > 0
    ensures d < b
  {
    (index / Pow(b, k)) % b
  }

  lemma MulOrder(a: nat, c: nat, s: nat)
    requires a <= c
    ensures a * s <= c * s
  {
  }

  lemma SlotBounds(b: nat, k: nat, j: nat)
    requires b > 0 && j < b
    ensures Pow(b, k + 1) == b * Pow(b, k)
    ensures (j + 1) * Pow(b, k) == j * Pow(b, k) + Pow(b, k)
    ensures j * Pow(b, k) + Pow(b, k) <= Pow(b, k + 1)
  {
    MulOrder(j + 1, b, Pow(b, k));
  }

  lemma DivUnique(x: nat, s: nat, q: nat)
    requires s > 0 && q * s <= x < q * s + s
    ensures x / s == q
  {
    if x / s < q {
      MulOrder(x / s + 1, q, s);
    } else if x / s > q {
      MulOrder(q + 1, x / s, s);
    }
  }

  lemma ModUnique(x: nat, s: nat, q: nat, r: nat)
    requires x == q * s + r && r < s
    ensures x % s == r && x / s == q
  {
    DivUnique(x, s, q);
  }

  lemma MulAssociates(q: nat, b: nat, s: nat)
    ensures q * (b * s) == (q * b) * s
  {
  }

  lemma MulDistributes(x: nat, j: nat, s: nat)
    ensures (x + j) * s == x * s + j * s
  {
  }

  /** Slot j of a node of size b * s starts at a multiple of s. */
  lemma SlotMultiple(b: nat, s: nat, base: nat, j: nat) returns (q: nat)
    requires b > 0 && s > 0 && b * s > 0 && base % (b * s) == 0
    ensures base + j * s == (q * b + j) * s
  {
    q := base / (b * s);
    assert base == q * (b * s);
    MulAssociates(q, b, s);
    MulDistributes(q * b, j, s);
  }

  /** An index inside slot j of a node based at `base` has digit j. */
  lemma DigitInSlot(b: nat, k: nat, base: nat, j: nat, index: nat)
    requires b > 0 && j < b && base % Pow(b, k + 1) == 0
    requires base + j * Pow(b, k) <= index < base + j * Pow(b, k) + Pow(b, k)
    ensures Digit(b, k, index) == j
  {
    var s := Pow(b, k);
    var q := SlotMultiple(b, s, base, j);
    DivUnique(index, s, q * b + j);
    ModUnique(q * b + j, b, q, j);
  }

  /** Every index inside a node lies in the slot its digit names. */
  lemma SlotOfIndex(b: nat, k: nat, base: nat, index: nat)
    requires b > 0 && base % Pow(b, k + 1) == 0 && base <= index < base + Pow(b, k + 1)
    ensures var j := Digit(b, k, index);
            base + j * Pow(b, k) <= index < base + j * Pow(b, k) + Pow(b, k)
  {
    var s := Pow(b, k);
    var j := (index - base) / s;
    assert index - base == j * s + (index - base) % s;
    if j >= b {
      MulOrder(b, j, s);
    }
    DigitInSlot(b, k, base, j, index);
  }

  /** The base of a slot is aligned to the size of the slot. */
  lemma SlotAligned(b: nat, k: nat, base: nat, j: nat)
    requires b > 0 && base % Pow(b, k + 1) == 0
    ensures (base + j * Pow(b, k)) % Pow(b, k) == 0
  {
    var s := Pow(b, k);
    var q := SlotMultiple(b, s, base, j);
    ModUnique(base + j * s, s, q * b + j, 0);
  }

  /** The alignment test of phys_page_set_level: inside a slot only its base is aligned. */
  lemma AlignedInSlot(b: nat, k: nat, base: nat, j: nat, index: nat)
    requires b > 0 && base % Pow(b, k + 1) == 0
    requires base + j * Pow(b, k) <= index < base + j * Pow(b, k) + Pow(b, k)
    ensures index % Pow(b, k) == 0 <==> index == base + j * Pow(b, k)
  {
    var s := Pow(b, k);
    var q := SlotMultiple(b, s, base, j);
    ModUnique(index, s, q * b + j, index - (base + j * s));
  }
}
