/** `istringstream >> n` for int and unsigned int, decimal. On blank text the extraction
    leaves n as it was; that value is the parameter `unset`. Any other failure stores 0 or
    the nearest representable number. */
module Scan {
  import opened Text

  const INT_MAX := 0x7FFF_FFFF
  const INT_MIN := -0x8000_0000
  const UINT_MAX := 0xFFFF_FFFF

  predicate Blank(s: string) {
    SkipSpace(s) == ""
  }

  /** The length of the leading run of decimal digits. */
  function DigitRun(s: string): (n: nat)
    ensures n <= |s| && AllDigits(s[..n]) && (n < |s| ==> !IsDigit(s[n]))
  {
    if s != [] && IsDigit(s[0]) then
      var n := 1 + DigitRun(s[1..]);
      assert s[..n] == [s[0]] + s[1..][..n - 1];
      n
    else 0
  }

  /** The sign and the magnitude of the number s starts with; no digits read as 0. */
  function Number(s: string): (bool, nat) {
    var signed := s != [] && (s[0] == '-' || s[0] == '+');
    var t := if signed then s[1..] else s;
    (signed && s[0] == '-', DecValue(t[..DigitRun(t)]))
  }

  function ReadInt(s: string, unset: int): int {
    if Blank(s) then unset else
      var (negative, v) := Number(SkipSpace(s));
      if negative then (if v > -INT_MIN then INT_MIN else 0 - v)
      else (if v > INT_MAX then INT_MAX else v)
  }

  /** A minus sign negates modulo 2^32. */
  function ReadUnsigned(s: string, unset: nat): nat {
    if Blank(s) then unset else
      var (negative, v) := Number(SkipSpace(s));
      if v > UINT_MAX then UINT_MAX
      else if negative && v > 0 then UINT_MAX + 1 - v
      else v
  }

  const SPACES := " \t\n\U{B}\U{C}\r"

  /** White space, a sign, digits, and a rest that is not part of the number; the rest may not
      start like a number either if there are no digits. */
  ghost predicate NumberText(space: string, sign: string, digits: string, rest: string) {
    && (forall i | 0 <= i < |space| :: space[i] in SPACES)
    && sign in {"", "+", "-"} && AllDigits(digits)
    && (rest != "" ==> rest[0] !in "0123456789")
    && (sign == "" && digits == "" ==> rest != "" && rest[0] !in SPACES + "+-")
  }

  /** n kept between the bounds. */
  function Clamp(low: int, n: int, high: int): int
    requires low <= high
  {
    if n < low then low else if n > high then high else n
  }

  /** What the extraction stores for any text that is not blank: the signed number, or the
      nearest int; for unsigned a number above the range gives the greatest one, and a minus
      sign negates modulo 2^32. No digits count as 0. */
  lemma ReadNumber(space: string, sign: string, digits: string, rest: string, unset: int, unsetUnsigned: nat)
    requires NumberText(space, sign, digits, rest)
    ensures var s, v := space + (sign + (digits + rest)), DecValue(digits);
            && ReadInt(s, unset) == Clamp(-0x8000_0000, Signed(sign == "-", v), 0x7FFF_FFFF)
            && ReadUnsigned(s, unsetUnsigned) ==
               if v > 0xFFFF_FFFF then 0xFFFF_FFFF else Signed(sign == "-", v) % 0x1_0000_0000
  {
    var t := sign + (digits + rest);
    SignedNumber(sign, digits, rest);
    SkipSpaces(space, t);
    ReadFound(space + t, t, sign == "-", DecValue(digits), unset, unsetUnsigned);
  }

  function Signed(negative: bool, v: nat): int {
    if negative then 0 - v else v
  }

  lemma ReadFound(s: string, t: string, negative: bool, v: nat, unset: int, unsetUnsigned: nat)
    requires SkipSpace(s) == t != "" && Number(t) == (negative, v)
    ensures ReadInt(s, unset) == Clamp(-0x8000_0000, Signed(negative, v), 0x7FFF_FFFF)
    ensures ReadUnsigned(s, unsetUnsigned) ==
            if v > 0xFFFF_FFFF then 0xFFFF_FFFF else Signed(negative, v) % 0x1_0000_0000
  {
  }

  lemma SignedNumber(sign: string, digits: string, rest: string)
    requires NumberText("", sign, digits, rest)
    ensures var t := sign + (digits + rest);
            t != "" && t[0] !in SPACES && Number(t) == (sign == "-", DecValue(digits))
  {
    var t := digits + rest;
    DigitRunIs(digits, rest);
    assert t[..|digits|] == digits;
    if digits != "" {
      assert t[0] == digits[0];
    }
    if sign == "" {
      assert sign + t == t;
    } else {
      assert (sign + t)[1..] == t && (sign + t)[0] == sign[0];
    }
  }

  lemma {:induction false} SkipSpaces(space: string, s: string)
    requires forall i | 0 <= i < |space| :: space[i] in SPACES
    requires s != "" && s[0] !in SPACES
    ensures SkipSpace(space + s) == s
  {
    if space == "" {
      assert space + s == s;
    } else {
      assert (space + s)[1..] == space[1..] + s;
      SkipSpaces(space[1..], s);
    }
  }

  lemma {:induction false} DigitRunIs(digits: string, rest: string)
    requires AllDigits(digits) && (rest != "" ==> rest[0] !in "0123456789")
    ensures DigitRun(digits + rest) == |digits|
  {
    if digits == "" {
      assert digits + rest == rest;
    } else {
      assert (digits + rest)[1..] == digits[1..] + rest;
      DigitRunIs(digits[1..], rest);
    }
  }

  /** Blank text is white space only; the variable then keeps its value. */
  lemma {:induction false} BlankIff(s: string, unset: nat)
    ensures Blank(s) <==> forall i | 0 <= i < |s| :: s[i] in SPACES
    ensures Blank(s) ==> ReadInt(s, unset) == ReadUnsigned(s, unset) == unset
  {
    if s != "" {
      BlankIff(s[1..], unset);
      assert forall i | 1 <= i < |s| :: s[i] == s[1..][i - 1];
    }
  }

  lemma ReadNumeral(sign: string, n: nat, unset: int, unsetUnsigned: nat)
    requires sign in {"", "-"}
    ensures ReadInt(sign + Dec(n), unset) == Clamp(-0x8000_0000, Signed(sign == "-", n), 0x7FFF_FFFF)
    ensures ReadUnsigned(sign + Dec(n), unsetUnsigned) ==
            if n > 0xFFFF_FFFF then 0xFFFF_FFFF else Signed(sign == "-", n) % 0x1_0000_0000
  {
    var s, none := sign + Dec(n), "";
    assert sign + (Dec(n) + none) == s;
    DecRoundTrip(n);
    SignedNumber(sign, Dec(n), none);
    ReadFound(s, s, sign == "-", n, unset, unsetUnsigned);
  }

  lemma PlainNumber(n: nat)
    ensures SkipSpace(Dec(n)) == Dec(n) && Number(Dec(n)) == (false, n)
  {
    var d := Dec(n);
    DecRoundTrip(n);
    DigitRunIs(d, "");
    assert d + "" == d && d[..|d|] == d;
  }

  lemma ReadPlainNumeral(n: nat, unset: int, unsetUnsigned: nat)
    ensures ReadInt(Dec(n), unset) == if n <= 0x7FFF_FFFF then n else 0x7FFF_FFFF
    ensures ReadUnsigned(Dec(n), unsetUnsigned) == if n <= 0xFFFF_FFFF then n else 0xFFFF_FFFF
  {
    PlainNumber(n);
    ReadFound(Dec(n), Dec(n), false, n, unset, unsetUnsigned);
  }

  /** A numeral beyond the range of int is read as the greatest int. */
  lemma ReadDecimal(n: nat, unset: int)
    ensures ReadInt(Dec(n), unset) == if n <= 0x7FFF_FFFF then n else 0x7FFF_FFFF
  {
    ReadPlainNumeral(n, unset, 0);
  }

  /** Printed numbers are read back: the text of every int is scanned as that int. */
  lemma ReadIntRoundTrip(n: int, unset: int)
    requires INT_MIN <= n <= INT_MAX
    ensures ReadInt(IntText(n), unset) == n
  {
    if n < 0 {
      ReadNumeral("-", -n, unset, 0);
    } else {
      ReadDecimal(n, unset);
    }
  }

  /** The unsigned extraction reads every numeral up to the greatest unsigned int as it is, a
      greater one as the greatest. */
  lemma ReadUnsignedRoundTrip(n: nat, unset: nat)
    ensures ReadUnsigned(Dec(n), unset) == if n <= 0xFFFF_FFFF then n else 0xFFFF_FFFF
  {
    ReadPlainNumeral(n, 0, unset);
  }

  /** A negated one is taken modulo 2^32. */
  lemma ReadNegatedUnsigned(n: nat, unset: nat)
    requires 0 < n <= 0xFFFF_FFFF
    ensures ReadUnsigned("-" + Dec(n), unset) == 0x1_0000_0000 - n
  {
    ReadNumeral("-", n, 0, unset);
  }
}
