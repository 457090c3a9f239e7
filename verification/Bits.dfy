/** Fixed-width unsigned arithmetic written out over the natural numbers: powers of two,
    bitwise "and", single bits and masks of leading ones. Shared by the IPv4 code and by
    the ALIGNMENT macro. */
module Bits {

  type byte = x: nat | x < 0x100
  type uint32 = x: nat | x < 0x1_0000_0000

  function Pow2(n: nat): (p: nat)
    ensures p > 0
  {
    if n == 0 then 1 else 2 * Pow2(n - 1)
  }

  /** Bit i of x, bit 0 being the least significant. */
  predicate Bit(x: nat, i: nat) {
    if i == 0 then x % 2 == 1 else Bit(x / 2, i - 1)
  }

  /** The `&` operator of C on unsigned operands. */
  function And(a: nat, b: nat): nat {
    if a == 0 || b == 0 then 0
    else 2 * And(a / 2, b / 2) + if a % 2 == 1 && b % 2 == 1 then 1 else 0
  }

  /** x << k without truncation, and x >> k. */
  function Shl(x: nat, k: nat): nat {
    if k == 0 then x else 2 * Shl(x, k - 1)
  }

  function Shr(x: nat, k: nat): nat
    decreases k
  {
    if k == 0 then x else Shr(x / 2, k - 1)
  }

  /** The w-bit word whose n most significant bits are set. */
  function LeadingOnes(w: nat, n: nat): nat
    requires n <= w
  {
    Pow2Monotone(w - n, w);
    Pow2(w) - Pow2(w - n)
  }

  /** The number of zero bits below the lowest set bit. */
  function TrailingZeros(m: nat): nat
    requires m > 0
  {
    if m % 2 == 1 then 0 else 1 + TrailingZeros(m / 2)
  }

  /** No clear bit of the w-bit word m lies above a set one. */
  ghost predicate Contiguous(w: nat, m: nat) {
    forall i: nat, j: nat | i < j < w && Bit(m, i) :: Bit(m, j)
  }

  // ---------------------------------------------------------------- powers of two

  lemma Pow2Monotone(a: nat, b: nat)
    requires a <= b
    ensures Pow2(a) <= Pow2(b)
  {
    if a < b {
      Pow2Monotone(a, b - 1);
    }
  }

  lemma Pow2OfByteAndWord()
    ensures Pow2(8) == 0x100 && Pow2(32) == 0x1_0000_0000
  {
    assert Pow2(4) == 16;
    ShlPow2(4, 4);
    ShlIsProduct(16, 4);
    ShlPow2(8, 8);
    ShlIsProduct(256, 8);
    ShlPow2(16, 16);
    ShlIsProduct(65536, 16);
  }

  // ---------------------------------------------------------------- shifts

  lemma {:induction false} ShlIsProduct(x: nat, k: nat)
    ensures Shl(x, k) == x * Pow2(k)
  {
    if k > 0 {
      ShlIsProduct(x, k - 1);
      assert x * Pow2(k) == 2 * (x * Pow2(k - 1));
    }
  }

  lemma {:induction false} ShrIsQuotient(x: nat, k: nat)
    ensures Shr(x, k) == x / Pow2(k)
  {
    ShrRemainder(x, k);
    ShlIsProduct(Shr(x, k), k);
    DivUnique(x, Pow2(k), Shr(x, k), x - Shl(Shr(x, k), k));
  }

  lemma {:induction false} ShlPow2(a: nat, k: nat)
    ensures Shl(Pow2(a), k) == Pow2(a + k)
  {
    if k > 0 {
      ShlPow2(a, k - 1);
    }
  }

  /** Shifting right and left again rounds down to a multiple of 2^k. */
  lemma {:induction false} ShrRemainder(x: nat, k: nat)
    ensures 0 <= x - Shl(Shr(x, k), k) < Pow2(k)
  {
    if k > 0 {
      ShrRemainder(x / 2, k - 1);
    }
  }

  lemma {:induction false} ShrOfShl(h: nat, l: nat, k: nat)
    requires l < Pow2(k)
    ensures Shr(Shl(h, k) + l, k) == h
    decreases k
  {
    if k > 0 {
      ShrOfShl(h, l / 2, k - 1);
      assert (Shl(h, k) + l) / 2 == Shl(h, k - 1) + l / 2;
    }
  }

  lemma {:induction false} ShlShl(x: nat, a: nat, b: nat)
    ensures Shl(Shl(x, a), b) == Shl(x, a + b)
  {
    if b > 0 {
      ShlShl(x, a, b - 1);
    }
  }

  lemma {:induction false} ShrShr(x: nat, a: nat, b: nat)
    ensures Shr(Shr(x, a), b) == Shr(x, a + b)
    decreases a
  {
    if a > 0 {
      ShrShr(x / 2, a - 1, b);
    }
  }

  lemma {:induction false} ShrBit(x: nat, i: nat)
    ensures Bit(x, i) <==> Shr(x, i) % 2 == 1
    decreases i
  {
    if i > 0 {
      ShrBit(x / 2, i - 1);
    }
  }

  /** Bit i is the parity of the quotient by 2^i. */
  lemma BitOfQuotient(x: nat, i: nat)
    ensures Bit(x, i) <==> x / Pow2(i) % 2 == 1
  {
    ShrBit(x, i);
    ShrIsQuotient(x, i);
  }

  // ---------------------------------------------------------------- division

  lemma DivUnique(x: int, d: int, q: int, r: int)
    requires d > 0 && 0 <= r < d && x == q * d + r
    ensures x / d == q && x % d == r
  {
    var q', r' := x / d, x % d;
    assert x == q' * d + r';
    assert (q - q') * d == r' - r;
    assert (q' - q) * d == r - r';
    if q > q' {
      MulAtLeast(q - q', d);
    } else if q' > q {
      MulAtLeast(q' - q, d);
    }
  }

  lemma MulAtLeast(k: int, d: int)
    requires k >= 1 && d > 0
    ensures k * d >= d
  {
    assert (k - 1) * d >= 0;
  }

  // ---------------------------------------------------------------- bitwise and

  lemma AndStep(a: nat, b: nat)
    ensures And(a, b) == 2 * And(a / 2, b / 2) + if a % 2 == 1 && b % 2 == 1 then 1 else 0
  {
  }

  /** `And` is the bitwise operation: bit i of the result is set exactly when bit i of both
      operands is. */
  lemma {:induction false} AndBit(a: nat, b: nat, i: nat)
    ensures Bit(And(a, b), i) <==> Bit(a, i) && Bit(b, i)
    decreases i
  {
    AndStep(a, b);
    if i > 0 {
      AndBit(a / 2, b / 2, i - 1);
      assert And(a, b) / 2 == And(a / 2, b / 2);
    }
  }

  /** A word is determined by its bits. */
  lemma {:induction false} SameBits(a: nat, b: nat)
    requires forall i: nat :: Bit(a, i) <==> Bit(b, i)
    ensures a == b
    decreases a + b
  {
    assert Bit(a, 0) <==> Bit(b, 0);
    if a + b > 0 {
      forall i: nat ensures Bit(a / 2, i) <==> Bit(b / 2, i) {
        assert Bit(a, i + 1) <==> Bit(b, i + 1);
      }
      SameBits(a / 2, b / 2);
    }
  }

  /** `And` works separately on the bits below and above any position. */
  lemma {:induction false} AndSplit(k: nat, h: nat, l: nat, h': nat, l': nat)
    requires l < Pow2(k) && l' < Pow2(k)
    ensures And(Shl(h, k) + l, Shl(h', k) + l') == Shl(And(h, h'), k) + And(l, l')
    decreases k
  {
    if k > 0 {
      var x, y := Shl(h, k) + l, Shl(h', k) + l';
      assert x / 2 == Shl(h, k - 1) + l / 2 && x % 2 == l % 2;
      assert y / 2 == Shl(h', k - 1) + l' / 2 && y % 2 == l' % 2;
      AndStep(x, y);
      AndStep(l, l');
      AndSplit(k - 1, h, l / 2, h', l' / 2);
    }
  }

  lemma {:induction false} AndBound(k: nat, a: nat, b: nat)
    requires a < Pow2(k)
    ensures And(a, b) < Pow2(k)
    decreases k
  {
    AndStep(a, b);
    if k > 0 {
      AndBound(k - 1, a / 2, b / 2);
    }
  }

  lemma LeadingOnesStep(w: nat, n: nat)
    requires n <= w && w > 0
    ensures n < w ==> LeadingOnes(w, n) == 2 * LeadingOnes(w - 1, n)
    ensures n == w ==> LeadingOnes(w, n) == 2 * LeadingOnes(w - 1, n - 1) + 1
  {
  }

  /** Masking with the leading ones above bit k rounds down to a multiple of 2^k. */
  lemma {:induction false} AndLeadingOnes(w: nat, k: nat, x: nat)
    requires k <= w && x < Pow2(w)
    ensures And(x, LeadingOnes(w, w - k)) == Shl(Shr(x, k), k)
    decreases w
  {
    if w > 0 {
      LeadingOnesStep(w, w - k);
      var h, l := x / 2, x % 2;
      assert x == 2 * h + l;
      if k > 0 {
        AndJoin(h, l, LeadingOnes(w - 1, w - k), 0);
        AndLeadingOnes(w - 1, k - 1, h);
      } else {
        AndJoin(h, l, LeadingOnes(w - 1, w - 1), 1);
        AndLeadingOnes(w - 1, 0, h);
      }
    }
  }

  /** Turning on every bit outside m changes nothing under m. */
  lemma {:induction false} AndIgnoresComplement(w: nat, a: nat, m: nat)
    requires a < Pow2(w) && m < Pow2(w)
    ensures And(a, m) + (Pow2(w) - 1 - m) < Pow2(w)
    ensures And(And(a, m), m) == And(a, m)
    ensures And(And(a, m) + (Pow2(w) - 1 - m), m) == And(a, m)
    decreases w
  {
    if w > 0 {
      AndIgnoresComplement(w - 1, a / 2, m / 2);
      var c := Pow2(w - 1) - 1 - m / 2;
      ComplementStep(a / 2, a % 2, m / 2, m % 2, c);
      assert Pow2(w) - 1 - m == 2 * c + 1 - m % 2;
      assert 2 * (a / 2) + a % 2 == a && 2 * (m / 2) + m % 2 == m;
    }
  }

  lemma ComplementStep(h: nat, l: nat, h': nat, l': nat, c: nat)
    requires l < 2 && l' < 2
    requires And(And(h, h'), h') == And(h, h') == And(And(h, h') + c, h')
    ensures var r := And(2 * h + l, 2 * h' + l');
            && And(r, 2 * h' + l') == r
            && And(r + 2 * c + 1 - l', 2 * h' + l') == r
            && r <= 2 * And(h, h') + l'
  {
    var x := And(h, h');
    var bit := if l == 1 && l' == 1 then 1 else 0;
    AndJoin(h, l, h', l');
    AndJoin(x, bit, h', l');
    AndJoin(x + c, bit + 1 - l', h', l');
    assert 2 * x + bit + 2 * c + 1 - l' == 2 * (x + c) + (bit + 1 - l');
  }

  lemma AndJoin(h: nat, l: nat, h': nat, l': nat)
    requires l < 2 && l' < 2
    ensures And(2 * h + l, 2 * h' + l') == 2 * And(h, h') + if l == 1 && l' == 1 then 1 else 0
  {
    var a, b := 2 * h + l, 2 * h' + l';
    assert a / 2 == h && b / 2 == h';
    AndStep(a, b);
  }

  /** The bits of a where m is set and those of b elsewhere. */
  function Select(a: nat, b: nat, m: nat): nat
    decreases a + b
  {
    if a == 0 && b == 0 then 0 else 2 * Select(a / 2, b / 2, m / 2) + (if m % 2 == 1 then a else b) % 2
  }

  lemma {:induction false} SelectBit(a: nat, b: nat, m: nat, i: nat)
    ensures Bit(Select(a, b, m), i) <==> Bit(if Bit(m, i) then a else b, i)
    decreases i
  {
    if i > 0 {
      SelectBit(a / 2, b / 2, m / 2, i - 1);
      assert Select(a, b, m) / 2 == Select(a / 2, b / 2, m / 2);
    }
  }

  lemma {:induction false} SelectBound(w: nat, a: nat, b: nat, m: nat)
    requires a < Pow2(w) && b < Pow2(w)
    ensures Select(a, b, m) < Pow2(w)
    decreases w
  {
    if w > 0 {
      SelectBound(w - 1, a / 2, b / 2, m / 2);
    }
  }

  /** Three operands may be taken in any order. */
  lemma AndSwapMasks(a: nat, m: nat, n: nat)
    ensures And(And(a, m), n) == And(And(a, n), m)
  {
    forall i: nat ensures Bit(And(And(a, m), n), i) <==> Bit(And(And(a, n), m), i) {
      AndBit(And(a, m), n, i);
      AndBit(a, m, i);
      AndBit(And(a, n), m, i);
      AndBit(a, n, i);
    }
    SameBits(And(And(a, m), n), And(And(a, n), m));
  }

  /** If a and b agree where both masks are set, one word looks like a under m and like b
      under n. */
  lemma SelectAgrees(a: nat, b: nat, m: nat, n: nat)
    requires And(And(a, m), n) == And(And(b, m), n)
    ensures And(Select(a, b, m), m) == And(a, m) && And(Select(a, b, m), n) == And(b, n)
  {
    var s := Select(a, b, m);
    forall i: nat
      ensures Bit(And(s, m), i) <==> Bit(And(a, m), i)
      ensures Bit(And(s, n), i) <==> Bit(And(b, n), i)
    {
      SelectBit(a, b, m, i);
      AndBit(s, m, i);
      AndBit(s, n, i);
      AndBit(a, m, i);
      AndBit(b, n, i);
      AndBit(b, m, i);
      AndBit(And(a, m), n, i);
      AndBit(And(b, m), n, i);
    }
    SameBits(And(s, m), And(a, m));
    SameBits(And(s, n), And(b, n));
  }

  // ---------------------------------------------------------------- masks

  /** The contiguous words are exactly the masks of leading ones. */
  lemma {:induction false} ContiguousIsLeadingOnes(w: nat, m: nat) returns (n: nat)
    requires m < Pow2(w) && Contiguous(w, m)
    ensures n <= w && m == LeadingOnes(w, n)
    decreases w
  {
    if w == 0 {
      n := 0;
    } else {
      forall i: nat, j: nat | i < j < w - 1 && Bit(m / 2, i) ensures Bit(m / 2, j) {
        assert Bit(m, i + 1) && Bit(m, j + 1);
      }
      n := ContiguousIsLeadingOnes(w - 1, m / 2);
      if m % 2 == 1 {
        n := w;
        assert Bit(m, 0);
        AllOnes(w, m);
      }
    }
  }

  lemma {:induction false} AllOnes(w: nat, m: nat)
    requires m < Pow2(w) && forall j: nat | j < w :: Bit(m, j)
    ensures m == Pow2(w) - 1
    decreases w
  {
    if w > 0 {
      assert Bit(m, 0);
      forall j: nat | j < w - 1 ensures Bit(m / 2, j) {
        assert Bit(m, j + 1);
      }
      AllOnes(w - 1, m / 2);
    }
  }

  lemma {:induction false} LeadingOnesContiguous(w: nat, n: nat)
    requires n <= w
    ensures LeadingOnes(w, n) < Pow2(w) && Contiguous(w, LeadingOnes(w, n))
  {
    forall i: nat, j: nat | i < j < w && Bit(LeadingOnes(w, n), i)
      ensures Bit(LeadingOnes(w, n), j)
    {
      LeadingOnesBit(w, n, i);
      LeadingOnesBit(w, n, j);
    }
  }

  lemma {:induction false} LeadingOnesBit(w: nat, n: nat, i: nat)
    requires n <= w && i < w
    ensures Bit(LeadingOnes(w, n), i) <==> w - n <= i
    decreases w
  {
    LeadingOnesStep(w, n);
    if i > 0 {
      LeadingOnesBit(w - 1, if n == w then n - 1 else n, i - 1);
    }
  }

  lemma TrailingZerosOfLeadingOnes(w: nat, n: nat)
    requires 0 < n <= w
    ensures LeadingOnes(w, n) > 0 && TrailingZeros(LeadingOnes(w, n)) == w - n
  {
    LeadingOnesIsShl(w, n);
    assert Pow2(n) == 2 * Pow2(n - 1);
    TrailingZerosOfShl(Pow2(n) - 1, w - n);
  }

  lemma {:induction false} LeadingOnesIsShl(w: nat, n: nat)
    requires n <= w
    ensures LeadingOnes(w, n) == Shl(Pow2(n) - 1, w - n)
    decreases w - n
  {
    if n < w {
      LeadingOnesStep(w, n);
      LeadingOnesIsShl(w - 1, n);
    }
  }

  lemma {:induction false} TrailingZerosOfShl(odd: nat, k: nat)
    requires odd % 2 == 1
    ensures Shl(odd, k) > 0 && TrailingZeros(Shl(odd, k)) == k
  {
    if k > 0 {
      TrailingZerosOfShl(odd, k - 1);
      TrailingZerosDouble(Shl(odd, k - 1));
    }
  }

  lemma TrailingZerosDouble(m: nat)
    requires m > 0
    ensures TrailingZeros(2 * m) == TrailingZeros(m) + 1
  {
    assert 2 * m / 2 == m;
  }

  /** A word shifted left by p loses its last set bit exactly when p reaches
      w minus the trailing zeros. */
  lemma {:induction false} ShiftedOut(w: nat, m: nat, p: nat)
    requires 0 < m < Pow2(w)
    ensures Shl(m, p) % Pow2(w) == 0 <==> TrailingZeros(m) + p >= w
    decreases m
  {
    if m % 2 == 0 {
      ShlDouble(m / 2, p);
      ShiftedOut(w, m / 2, p + 1);
    } else if p >= w {
      ShiftedPast(w, m, p);
    } else if Shl(m, p) % Pow2(w) == 0 {
      ShiftedMultipleIsEven(w, m, p);
    }
  }

  lemma {:induction false} ShlDouble(x: nat, k: nat)
    ensures Shl(2 * x, k) == Shl(x, k + 1)
  {
    if k > 0 {
      ShlDouble(x, k - 1);
    }
  }

  lemma ShiftedPast(w: nat, m: nat, p: nat)
    requires p >= w
    ensures Shl(m, p) % Pow2(w) == 0
  {
    ShlShl(m, p - w, w);
    ShlIsProduct(Shl(m, p - w), w);
    DivUnique(Shl(m, p), Pow2(w), Shl(m, p - w), 0);
  }

  lemma ShiftedMultipleIsEven(w: nat, m: nat, p: nat)
    requires p < w && Shl(m, p) % Pow2(w) == 0
    ensures m % 2 == 0
  {
    var q := Shl(m, p) / Pow2(w);
    assert Shl(m, p) == q * Pow2(w);
    ShlIsProduct(q, w);
    EvenFactor(w, m, p, q);
  }

  lemma EvenFactor(w: nat, m: nat, p: nat, q: nat)
    requires p < w && Shl(m, p) == Shl(q, w)
    ensures m % 2 == 0
  {
    ShlShl(q, w - p, p);
    ShrOfShl(m, 0, p);
    ShrOfShl(Shl(q, w - p), 0, p);
  }
}
