/** IPv4 addresses and netmasks as the kernel hands them out: 32-bit words holding four bytes
    in network order, read on a host of either byte order. The prefix length is computed in
    host order (Eth_Dev_Param::get_mask_prefix), the masked comparison in network order. */
module Ipv4 {
  import opened Bits
  import opened Text

  const WORD := 0x1_0000_0000

  /** The byte order of the host. */
  datatype Endian = Little | Big

  function Word(a: byte, b: byte, c: byte, d: byte): uint32 {
    ((a * 0x100 + b) * 0x100 + c) * 0x100 + d
  }

  function ByteSwap(x: uint32): uint32 {
    Word(x % 0x100, x / 0x100 % 0x100, x / 0x100 / 0x100 % 0x100, x / 0x100 / 0x100 / 0x100)
  }

  /** ntohl, which is also htonl. */
  function Ntohl(e: Endian, x: uint32): uint32 {
    if e == Little then ByteSwap(x) else x
  }

  /** Truncating left shift of a 32-bit word. */
  function Shl32(x: uint32, p: nat): uint32 {
    Shl(x, p) % WORD
  }

  function Netmask(n: nat): uint32
    requires n <= 32
  {
    LeadingOnesContiguous(32, n);
    Pow2OfByteAndWord();
    LeadingOnes(32, n)
  }

  /** The number get_mask_prefix returns for a host-order mask. */
  function PrefixLength(m: uint32): (p: nat)
    ensures p <= 32
  {
    if m == 0 then 0 else
      Pow2OfByteAndWord();
      TrailingZerosBound(32, m);
      32 - TrailingZeros(m)
  }

  lemma {:induction false} TrailingZerosBound(w: nat, m: nat)
    requires 0 < m < Pow2(w)
    ensures TrailingZeros(m) < w
    decreases m
  {
    if m % 2 == 0 {
      TrailingZerosBound(w - 1, m / 2);
    }
  }

  /** p times `x <<= 1` */
  function ShiftSteps(x: uint32, p: nat): uint32 {
    if p == 0 then x else 2 * ShiftSteps(x, p - 1) % WORD
  }

  lemma {:induction false} ShiftStepsIsShl32(x: uint32, p: nat)
    ensures ShiftSteps(x, p) == Shl32(x, p)
  {
    if p > 0 {
      ShiftStepsIsShl32(x, p - 1);
      ShlMod(x, p - 1);
    }
  }

  lemma ShiftStepsEmpty(m: uint32, p: nat)
    ensures ShiftSteps(m, p) == 0 <==> p >= PrefixLength(m)
  {
    ShiftStepsIsShl32(m, p);
    PrefixIsLeastShift(m, p);
  }

  /** Eth_Dev_Param::get_mask_prefix on the raw mask the ioctl stored. */
  method GetMaskPrefix(e: Endian, rawMask: uint32) returns (prefix: nat)
    ensures prefix <= 32
    ensures Shl32(Ntohl(e, rawMask), prefix) == 0
    ensures forall q: nat | q < prefix :: Shl32(Ntohl(e, rawMask), q) != 0
    ensures prefix == PrefixLength(Ntohl(e, rawMask))
  {
    prefix := 0;
    var mask := Ntohl(e, rawMask);
    ghost var m := mask;
    while mask != 0
      invariant mask == ShiftSteps(m, prefix)
      invariant prefix <= PrefixLength(m)
      decreases PrefixLength(m) - prefix
    {
      ShiftStepsEmpty(m, prefix);
      mask := 2 * mask % WORD;
      prefix := prefix + 1;
    }
    ShiftStepsEmpty(m, prefix);
    LeastShift(m);
  }

  lemma LeastShift(m: uint32)
    ensures Shl32(m, PrefixLength(m)) == 0
    ensures forall q: nat | q < PrefixLength(m) :: Shl32(m, q) != 0
  {
    PrefixIsLeastShift(m, PrefixLength(m));
    forall q: nat | q < PrefixLength(m) ensures Shl32(m, q) != 0 {
      PrefixIsLeastShift(m, q);
    }
  }

  lemma ShlMod(m: uint32, p: nat)
    ensures Shl32(m, p + 1) == 2 * Shl32(m, p) % WORD
  {
  }

  /** The prefix length is the least shift that empties the mask: a shift empties it exactly
      when it is at least the prefix length. */
  lemma PrefixIsLeastShift(m: uint32, p: nat)
    ensures Shl32(m, p) == 0 <==> p >= PrefixLength(m)
  {
    Pow2OfByteAndWord();
    if m == 0 {
      ShlIsProduct(0, p);
    } else {
      ShiftedOut(32, m, p);
    }
  }

  /** The prefix length undoes "mask of n leading ones". */
  lemma PrefixOfNetmask(n: nat)
    requires n <= 32
    ensures PrefixLength(Netmask(n)) == n
  {
    if n > 0 {
      TrailingZerosOfLeadingOnes(32, n);
    }
  }

  /** Rebuilding the mask from its prefix length gives it back exactly for the contiguous
      masks. */
  lemma RebuildMask(m: uint32)
    ensures Netmask(PrefixLength(m)) == m <==> Contiguous(32, m)
  {
    Pow2OfByteAndWord();
    if Contiguous(32, m) {
      var n := ContiguousIsLeadingOnes(32, m);
      PrefixOfNetmask(n);
    } else {
      LeadingOnesContiguous(32, PrefixLength(m));
    }
  }

  // ---------------------------------------------------------------- byte order

  lemma ByteSwapWord(a: byte, b: byte, c: byte, d: byte)
    ensures ByteSwap(Word(a, b, c, d)) == Word(d, c, b, a)
  {
    BytesOfWord(a, b, c, d);
  }

  lemma BytesOfWord(a: byte, b: byte, c: byte, d: byte)
    ensures var x := Word(a, b, c, d);
            x / 0x100 / 0x100 / 0x100 == a && x / 0x100 / 0x100 % 0x100 == b && x / 0x100 % 0x100 == c && x % 0x100 == d
  {
    LowByte((a * 0x100 + b) * 0x100 + c, d);
    LowByte(a * 0x100 + b, c);
    LowByte(a, b);
  }

  lemma WordSum(a: byte, b: byte, c: byte, d: byte)
    ensures Word(a, b, c, d) == 0x100_0000 * a + 0x1_0000 * b + 0x100 * c + d
  {
  }

  lemma LowByte(h: nat, l: byte)
    ensures (h * 0x100 + l) / 0x100 == h && (h * 0x100 + l) % 0x100 == l
  {
  }

  lemma WordOf(x: uint32) returns (a: byte, b: byte, c: byte, d: byte)
    ensures x == Word(a, b, c, d)
  {
    a, b, c, d := x / 0x100 / 0x100 / 0x100, x / 0x100 / 0x100 % 0x100, x / 0x100 % 0x100, x % 0x100;
  }

  lemma NtohlInvolution(e: Endian, x: uint32)
    ensures Ntohl(e, Ntohl(e, x)) == x
  {
    var a, b, c, d := WordOf(x);
    ByteSwapWord(a, b, c, d);
    ByteSwapWord(d, c, b, a);
  }

  /** A raw word on a host of byte order e whose bytes in memory, which is network order, are
      a, b, c, d. */
  predicate HoldsBytes(e: Endian, raw: uint32, a: byte, b: byte, c: byte, d: byte) {
    raw == match e
           case Little => a + 0x100 * b + 0x1_0000 * c + 0x100_0000 * d
           case Big => 0x100_0000 * a + 0x1_0000 * b + 0x100 * c + d
  }

  lemma EveryWordHoldsBytes(e: Endian, raw: uint32) returns (a: byte, b: byte, c: byte, d: byte)
    ensures HoldsBytes(e, raw, a, b, c, d)
  {
    if e == Big {
      a, b, c, d := WordOf(raw);
    } else {
      d, c, b, a := WordOf(raw);
    }
  }

  /** The host-order value has the first byte in network order as its most significant. */
  lemma NtohlOfBytes(e: Endian, raw: uint32, a: byte, b: byte, c: byte, d: byte)
    requires HoldsBytes(e, raw, a, b, c, d)
    ensures Ntohl(e, raw) == 0x100_0000 * a + 0x1_0000 * b + 0x100 * c + d
  {
    WordSum(a, b, c, d);
    if e == Little {
      WordSum(d, c, b, a);
      ByteSwapWord(d, c, b, a);
      assert Ntohl(e, raw) == ByteSwap(raw);
    }
  }

  lemma AndByteBound(a: byte, b: byte)
    ensures And(a, b) < 256
  {
    Pow2OfByteAndWord();
    AndBound(8, a, b);
  }

  lemma AndWord(a: byte, b: byte, c: byte, d: byte, a': byte, b': byte, c': byte, d': byte)
    returns (x: byte, y: byte, z: byte, w: byte)
    ensures x == And(a, a') && y == And(b, b') && z == And(c, c') && w == And(d, d')
    ensures And(Word(a, b, c, d), Word(a', b', c', d')) == Word(x, y, z, w)
  {
    x, y, z, w := AndOfBytes(a, a'), AndOfBytes(b, b'), AndOfBytes(c, c'), AndOfBytes(d, d');
    AndBytes(a, b, c, d, a', b', c', d');
  }

  function AndOfBytes(a: byte, b: byte): byte {
    AndByteBound(a, b);
    And(a, b)
  }

  lemma AndBytes(a: nat, b: byte, c: byte, d: byte, a': nat, b': byte, c': byte, d': byte)
    ensures And(((a * 0x100 + b) * 0x100 + c) * 0x100 + d, ((a' * 0x100 + b') * 0x100 + c') * 0x100 + d')
         == ((And(a, a') * 0x100 + And(b, b')) * 0x100 + And(c, c')) * 0x100 + And(d, d')
  {
    AndThreeBytes(a, b, c, a', b', c');
    AndByte((a * 0x100 + b) * 0x100 + c, d, (a' * 0x100 + b') * 0x100 + c', d');
  }

  lemma AndThreeBytes(a: nat, b: byte, c: byte, a': nat, b': byte, c': byte)
    ensures And((a * 0x100 + b) * 0x100 + c, (a' * 0x100 + b') * 0x100 + c')
         == (And(a, a') * 0x100 + And(b, b')) * 0x100 + And(c, c')
  {
    AndByte(a * 0x100 + b, c, a' * 0x100 + b', c');
    AndByte(a, b, a', b');
  }

  lemma AndByte(h: nat, l: byte, h': nat, l': byte)
    ensures And(h * 0x100 + l, h' * 0x100 + l') == And(h, h') * 0x100 + And(l, l')
  {
    Pow2OfByteAndWord();
    ShlIsProduct(h, 8);
    ShlIsProduct(h', 8);
    ShlIsProduct(And(h, h'), 8);
    AndSplit(8, h, l, h', l');
  }

  lemma AndUint32(x: uint32, y: uint32)
    ensures And(x, y) < WORD
  {
    Pow2OfByteAndWord();
    AndBound(32, x, y);
  }

  lemma NtohlAnd(e: Endian, x: uint32, y: uint32)
    ensures And(x, y) < WORD
    ensures Ntohl(e, And(x, y)) == And(Ntohl(e, x), Ntohl(e, y))
  {
    AndUint32(x, y);
    var a, b, c, d := WordOf(x);
    var a', b', c', d' := WordOf(y);
    var p, q, r, s := AndWord(a, b, c, d, a', b', c', d');
    var _, _, _, _ := AndWord(d, c, b, a, d', c', b', a');
    ByteSwapWord(a, b, c, d);
    ByteSwapWord(a', b', c', d');
    ByteSwapWord(p, q, r, s);
  }

  // ---------------------------------------------------------------- networks

  /** `(x & mask) == (y & mask)` */
  predicate SameMasked(x: uint32, y: uint32, mask: uint32) {
    And(x, mask) == And(y, mask)
  }

  /** Two host-order addresses agree on their top p bits. */
  predicate SamePrefix(x: uint32, y: uint32, p: nat)
    requires p <= 32
  {
    x / Pow2(32 - p) == y / Pow2(32 - p)
  }

  /** Addresses that agree on a prefix agree on every shorter one. */
  lemma SamePrefixShorter(x: uint32, y: uint32, p: nat, q: nat)
    requires q <= p <= 32 && SamePrefix(x, y, p)
    ensures SamePrefix(x, y, q)
  {
    ShrIsQuotient(x, 32 - p);
    ShrIsQuotient(y, 32 - p);
    ShrIsQuotient(x, 32 - q);
    ShrIsQuotient(y, 32 - q);
    ShrShr(x, 32 - p, p - q);
    ShrShr(y, 32 - p, p - q);
  }

  /** Comparing under the mask in network byte order gives the answer of comparing in host
      byte order. */
  lemma MaskingIgnoresByteOrder(e: Endian, x: uint32, y: uint32, mask: uint32)
    ensures SameMasked(x, y, mask) <==> SameMasked(Ntohl(e, x), Ntohl(e, y), Ntohl(e, mask))
  {
    NtohlAnd(e, x, mask);
    NtohlAnd(e, y, mask);
    NtohlInvolution(e, And(x, mask));
    NtohlInvolution(e, And(y, mask));
  }

  /** Under a contiguous mask the masked comparison is prefix membership. */
  lemma ContiguousMaskIsPrefix(x: uint32, y: uint32, m: uint32)
    requires Contiguous(32, m)
    ensures SameMasked(x, y, m) <==> SamePrefix(x, y, PrefixLength(m))
  {
    Pow2OfByteAndWord();
    RebuildMask(m);
    var k := 32 - PrefixLength(m);
    AndLeadingOnes(32, k, x);
    AndLeadingOnes(32, k, y);
    ShrIsQuotient(x, k);
    ShrIsQuotient(y, k);
    ShrOfShl(Shr(x, k), 0, k);
    ShrOfShl(Shr(y, k), 0, k);
  }

  /** Under a mask with a hole two addresses that the mask cannot tell apart lie in different
      networks of the reported prefix length. */
  lemma HoleyMaskIsNotPrefix(x: uint32, m: uint32) returns (y: uint32, y': uint32)
    requires !Contiguous(32, m)
    ensures SameMasked(x, y, m) && SameMasked(x, y', m)
    ensures !SamePrefix(y, y', PrefixLength(m))
  {
    Pow2OfByteAndWord();
    AndIgnoresComplement(32, x, m);
    AndUint32(x, m);
    y := And(x, m);
    y' := y + (WORD - 1 - m);
    HoleSeparates(y, m);
  }

  lemma HoleSeparates(y: uint32, m: uint32)
    requires !Contiguous(32, m) && y + (WORD - 1 - m) < WORD
    ensures !SamePrefix(y, y + (WORD - 1 - m), PrefixLength(m))
  {
    Pow2OfByteAndWord();
    RebuildMask(m);
    var k := TrailingZeros(m);
    TrailingZerosBound(32, m);
    HoleAboveTrailingZeros(32, m);
    ShrIsQuotient(y, k);
    ShrIsQuotient(y + (WORD - 1 - m), k);
    ShrGap(y, WORD - 1 - m, k);
  }

  lemma {:induction false} HoleAboveTrailingZeros(w: nat, m: nat)
    requires 0 < m < Pow2(w) && TrailingZeros(m) < w
    requires m != LeadingOnes(w, w - TrailingZeros(m))
    ensures Pow2(w) - 1 - m >= Pow2(TrailingZeros(m))
    decreases m
  {
    if m % 2 == 0 {
      HoleAboveTrailingZeros(w - 1, m / 2);
    }
  }

  lemma {:induction false} ShrGap(y: nat, c: nat, k: nat)
    requires c >= Pow2(k)
    ensures Shr(y + c, k) > Shr(y, k)
    decreases k
  {
    if k > 0 {
      ShrMonotone(y / 2 + c / 2, (y + c) / 2, k - 1);
      ShrGap(y / 2, c / 2, k - 1);
    }
  }

  lemma {:induction false} ShrMonotone(x: nat, y: nat, k: nat)
    requires x <= y
    ensures Shr(x, k) <= Shr(y, k)
    decreases k
  {
    if k > 0 {
      ShrMonotone(x / 2, y / 2, k - 1);
    }
  }

  // ---------------------------------------------------------------- dotted decimal

  function DotJoin(a: byte, rest: string): string {
    Dec(a) + ['.'] + rest
  }

  /** inet_ntop(AF_INET, …): the four bytes, most significant first. */
  function Dotted(x: uint32): string {
    DotJoin(x / 0x100 / 0x100 / 0x100,
      DotJoin(x / 0x100 / 0x100 % 0x100, DotJoin(x / 0x100 % 0x100, Dec(x % 0x100))))
  }

  /** The text is the four bytes of the raw word in network order, in decimal, joined by dots. */
  ghost predicate Spells(e: Endian, raw: uint32, text: string) {
    forall a: byte, b: byte, c: byte, d: byte | HoldsBytes(e, raw, a, b, c, d) ::
      text == Dec(a) + "." + Dec(b) + "." + Dec(c) + "." + Dec(d)
  }

  /** Printing the host-order value spells the bytes of the raw word, on either kind of host. */
  lemma DottedSpells(e: Endian, raw: uint32)
    ensures Spells(e, raw, Dotted(Ntohl(e, raw)))
  {
    forall a: byte, b: byte, c: byte, d: byte | HoldsBytes(e, raw, a, b, c, d)
      ensures Dotted(Ntohl(e, raw)) == Dec(a) + "." + Dec(b) + "." + Dec(c) + "." + Dec(d)
    {
      NtohlOfBytes(e, raw, a, b, c, d);
      WordSum(a, b, c, d);
      DottedBytes(Ntohl(e, raw), a, b, c, d);
    }
  }

  lemma DottedBytes(x: uint32, a: byte, b: byte, c: byte, d: byte)
    requires x == Word(a, b, c, d)
    ensures Dotted(x) == Dec(a) + "." + Dec(b) + "." + Dec(c) + "." + Dec(d)
  {
    BytesOfWord(a, b, c, d);
    assert Dotted(x) == DotJoin(a, DotJoin(b, DotJoin(c, Dec(d))));
    JoinFour(Dec(a), Dec(b), Dec(c), Dec(d));
  }

  lemma JoinFour(a: string, b: string, c: string, d: string)
    ensures a + ['.'] + (b + ['.'] + (c + ['.'] + d)) == a + "." + b + "." + c + "." + d
  {
  }

  /** 192.168.0.1 on hosts of either byte order. */
  lemma SpellsExample(text: string)
    ensures Spells(Little, 0x0100A8C0, text) ==> text == "192.168.0.1"
    ensures Spells(Big, 0xC0A80001, text) ==> text == "192.168.0.1"
  {
    assert HoldsBytes(Little, 0x0100A8C0, 192, 168, 0, 1) && HoldsBytes(Big, 0xC0A80001, 192, 168, 0, 1);
    assert Dec(192) + "." + Dec(168) + "." + Dec(0) + "." + Dec(1) == "192.168.0.1";
  }

  predicate DigitsAndDots(s: string) {
    s != [] && forall i | 0 <= i < |s| :: IsDigit(s[i]) || s[i] == '.'
  }

  lemma DottedShape(x: uint32)
    ensures DigitsAndDots(Dotted(x))
  {
    DotJoinShape(x / 0x100 % 0x100, Dec(x % 0x100));
    var last2 := DotJoin(x / 0x100 % 0x100, Dec(x % 0x100));
    DotJoinShape(x / 0x100 / 0x100 % 0x100, last2);
    DotJoinShape(x / 0x100 / 0x100 / 0x100, DotJoin(x / 0x100 / 0x100 % 0x100, last2));
  }

  lemma DotJoinShape(a: byte, rest: string)
    requires DigitsAndDots(rest)
    ensures DigitsAndDots(DotJoin(a, rest))
  {
  }

  /** Different addresses print differently. */
  lemma DottedInjective(x: uint32, y: uint32)
    requires Dotted(x) == Dotted(y)
    ensures x == y
  {
    var lastX := DotJoin(x / 0x100 % 0x100, Dec(x % 0x100));
    var lastY := DotJoin(y / 0x100 % 0x100, Dec(y % 0x100));
    DotJoinInjective(x / 0x100 / 0x100 / 0x100, DotJoin(x / 0x100 / 0x100 % 0x100, lastX),
      y / 0x100 / 0x100 / 0x100, DotJoin(y / 0x100 / 0x100 % 0x100, lastY));
    DotJoinInjective(x / 0x100 / 0x100 % 0x100, lastX, y / 0x100 / 0x100 % 0x100, lastY);
    DotJoinInjective(x / 0x100 % 0x100, Dec(x % 0x100), y / 0x100 % 0x100, Dec(y % 0x100));
    DecInjective(x % 0x100, y % 0x100);
  }

  lemma DotJoinInjective(a: byte, r: string, b: byte, r': string)
    requires DotJoin(a, r) == DotJoin(b, r')
    ensures a == b && r == r'
  {
    SplitUnique(Dec(a), '.', r, Dec(b), r');
    DecInjective(a, b);
  }

  lemma DecInjective(m: nat, n: nat)
    requires Dec(m) == Dec(n)
    ensures m == n
  {
    DecRoundTrip(m);
    DecRoundTrip(n);
  }
}
