/** Powers of two and bit lengths, for the tree shapes and the variable-length integers. */
module PowersOfTwo {
  import opened Octets

  function Pow2(d: nat): (p: nat)
    ensures p > 0
  {
    if d == 0 then 1 else 2 * Pow2(d - 1)
  }

  lemma Pow2Step(d: nat)
    ensures Pow2(0) == 1 && Pow2(d + 1) == 2 * Pow2(d)
  {
  }

  /** The number of significant bits of `x`: 64 minus its leading zeros. */
  function BitLength(x: nat): nat {
    if x == 0 then 0 else 1 + BitLength(x / 2)
  }

  lemma {:induction false} Pow2Increases(d: nat, e: nat)
    requires d < e
    ensures 2 * Pow2(d) <= Pow2(e)
  {
    if d + 1 < e {
      Pow2Increases(d, e - 1);
    }
  }

  lemma {:induction false} BitLengthBounds(x: nat)
    requires x > 0
    ensures BitLength(x) > 0
    ensures Pow2(BitLength(x) - 1) <= x < Pow2(BitLength(x))
  {
    if x > 1 {
      BitLengthBounds(x / 2);
    }
  }

  lemma {:induction false} BitLengthMonotone(x: nat, y: nat)
    requires x <= y
    ensures BitLength(x) <= BitLength(y)
  {
    if x > 0 {
      BitLengthMonotone(x / 2, y / 2);
    }
  }

  lemma {:induction false} BitLengthOfPow2(e: nat)
    ensures BitLength(Pow2(e) - 1) == e
  {
    if e > 0 {
      BitLengthOfPow2(e - 1);
      assert (Pow2(e) - 1) / 2 == Pow2(e - 1) - 1;
    }
  }

  lemma Pow2Of63()
    ensures Pow2(63) == U64_LIMIT / 2
  {
    assert Pow2(3) == 8;
    assert Pow2(7) == 8 * Pow2(4) == 128;
    Pow2Shift8(7);
    Pow2Shift8(15);
    Pow2Shift8(23);
    Pow2Shift8(31);
    Pow2Shift8(39);
    Pow2Shift8(47);
    Pow2Shift8(55);
  }

  lemma Pow2Shift8(d: nat)
    ensures Pow2(d + 8) == 256 * Pow2(d)
  {
    assert Pow2(d + 4) == 4 * Pow2(d + 2) == 16 * Pow2(d);
    assert Pow2(d + 8) == 4 * Pow2(d + 6) == 16 * Pow2(d + 4);
  }

  lemma DoubleOut(x: nat, y: nat)
    ensures x * (2 * y) == 2 * (x * y)
  {
  }

  lemma {:induction false} Pow2Adds(a: nat, b: nat)
    ensures Pow2(a + b) == Pow2(a) * Pow2(b)
  {
    hide Pow2;
    Pow2Step(0);
    if b > 0 {
      Pow2Adds(a, b - 1);
      Pow2Step(a + b - 1);
      Pow2Step(b - 1);
      DoubleOut(Pow2(a), Pow2(b - 1));
    }
  }

  lemma {:induction false} BitLengthSmall(x: nat)
    ensures BitLength(x) <= x
  {
    if x > 0 {
      BitLengthSmall(x / 2);
    }
  }
}
