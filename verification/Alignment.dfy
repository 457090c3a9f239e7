/** The ALIGNMENT macro of smacros.h, on w-bit unsigned operands. */
module Alignment {
  import opened Bits

  /** `~x` on w bits. */
  function Complement(w: nat, x: nat): nat
    requires x < Pow2(w)
  {
    Pow2(w) - 1 - x
  }

  /** ((val) + (align)) & ~((align) - 1), the sum wrapping at w bits. */
  function Align(w: nat, val: nat, align: nat): nat
    requires 0 < align <= Pow2(w)
  {
    And((val + align) % Pow2(w), Complement(w, align - 1))
  }

  /** For a power-of-two alignment and a sum that does not overflow, the result is the one
      multiple of the alignment strictly above the value and at most one alignment above it;
      it is a whole alignment above exactly when the value was aligned already. */
  lemma AlignmentIsNextMultiple(w: nat, val: nat, k: nat)
    requires k <= w && val + Pow2(k) < Pow2(w)
    ensures Pow2(k) <= Pow2(w)
    ensures var r := Align(w, val, Pow2(k));
            && r % Pow2(k) == 0
            && val < r <= val + Pow2(k)
            && (r == val + Pow2(k) <==> val % Pow2(k) == 0)
            && forall r': int | r' % Pow2(k) == 0 && val < r' <= val + Pow2(k) :: r' == r
  {
    Pow2Monotone(k, w);
    AlignIsRoundedDown(w, val, k);
    ShrRemainder(val + Pow2(k), k);
    ShlIsProduct(Shr(val + Pow2(k), k), k);
    NextMultiple(val, Pow2(k), Shr(val + Pow2(k), k));
  }

  /** 8 is aligned to 4, and is moved up to 12. */
  lemma AlignedExample()
    ensures Align(32, 8, 4) == 12
  {
    Pow2OfByteAndWord();
    assert Pow2(2) == 4;
    AlignmentIsNextMultiple(32, 8, 2);
  }

  lemma AlignIsRoundedDown(w: nat, val: nat, k: nat)
    requires k <= w && val + Pow2(k) < Pow2(w)
    ensures Align(w, val, Pow2(k)) == Shl(Shr(val + Pow2(k), k), k)
  {
    var x := val + Pow2(k);
    DivUnique(x, Pow2(w), 0, x);
    Pow2Monotone(k, w);
    assert Complement(w, Pow2(k) - 1) == LeadingOnes(w, w - k);
    AndLeadingOnes(w, k, x);
  }

  lemma NextMultiple(val: nat, a: nat, q: nat)
    requires a > 0 && 0 <= val + a - q * a < a
    ensures q * a % a == 0
    ensures val % a == val + a - q * a
    ensures forall r: int | r % a == 0 && val < r <= val + a :: r == q * a
  {
    DivUnique(q * a, a, q, 0);
    assert (q - 1) * a == q * a - a;
    DivUnique(val, a, q - 1, val + a - q * a);
    DivUnique(val + a, a, q, val + a - q * a);
    forall r: int | r % a == 0 && val < r <= val + a ensures r == q * a {
      assert r == r / a * a;
      DivUnique(val + a, a, r / a, val + a - r);
    }
  }
}
