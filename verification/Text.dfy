/** Characters and numerals shared by the printers and parsers: decimal text, hexadecimal
    digits, and splitting at a separator. */
module Text {
  import opened Bits

  datatype Option<+T> = None | Some(value: T)

  predicate IsDigit(c: char) {
    '0' <= c <= '9'
  }

  function DigitValue(c: char): (d: nat)
    requires IsDigit(c)
    ensures d < 10
  {
    c as int - '0' as int
  }

  function DigitChar(d: nat): (c: char)
    requires d < 10
    ensures IsDigit(c) && DigitValue(c) == d
  {
    ('0' as int + d) as char
  }

  lemma DigitsInOrder(d: nat)
    requires d < 10
    ensures DigitChar(d) == "0123456789"[d]
  {
  }

  lemma DigitCharOfValue(c: char)
    requires IsDigit(c)
    ensures DigitChar(DigitValue(c)) == c
  {
  }

  predicate AllDigits(s: string) {
    forall i | 0 <= i < |s| :: IsDigit(s[i])
  }

  /** Decimal text without leading zeros, as `%d` and `operator<<` print it. */
  function Dec(n: nat): (s: string)
    ensures s != [] && AllDigits(s)
  {
    if n < 10 then [DigitChar(n)] else Dec(n / 10) + [DigitChar(n % 10)]
  }

  /** Signed decimal text. */
  function IntText(n: int): string {
    if n < 0 then "-" + Dec(-n) else Dec(n)
  }

  /** The number a string of decimal digits denotes. */
  function DecValue(s: string): nat
    requires AllDigits(s)
  {
    if s == [] then 0 else 10 * DecValue(s[..|s| - 1]) + DigitValue(s[|s| - 1])
  }

  lemma {:induction false} DecRoundTrip(n: nat)
    ensures DecValue(Dec(n)) == n
  {
    if n >= 10 {
      DecRoundTrip(n / 10);
      assert Dec(n)[..|Dec(n)| - 1] == Dec(n / 10);
    }
  }

  /** Dec is the one text of n without leading zeros: any digits that do not start with 0 are
      the text of their value. */
  lemma {:induction false} DecCanonical(s: string)
    requires s != "" && AllDigits(s) && (s[0] != '0' || |s| == 1)
    ensures Dec(DecValue(s)) == s
    ensures s[0] != '0' ==> DecValue(s) > 0
  {
    var h, c := s[..|s| - 1], s[|s| - 1];
    assert s == h + [c];
    DigitCharOfValue(c);
    assert DecValue(s) == 10 * DecValue(h) + DigitValue(c);
    if h == "" {
      assert DecValue(s) == DigitValue(c);
    } else {
      assert h[0] == s[0];
      DecCanonical(h);
      DecAppend(DecValue(h), DigitValue(c));
    }
  }

  lemma DecAppend(n: nat, d: nat)
    requires n > 0 && d < 10
    ensures Dec(10 * n + d) == Dec(n) + [DigitChar(d)]
  {
    var m := 10 * n + d;
    assert m / 10 == n && m % 10 == d;
  }

  /** Digit k of the text, counted from the right, is digit k of the number; there are as many
      as the number needs. */
  lemma {:induction false} DecDigits(n: nat, k: nat)
    requires k < |Dec(n)|
    ensures Dec(n)[|Dec(n)| - 1 - k] == DigitChar(n / Pow10(k) % 10)
    decreases k
  {
    if k > 0 {
      var h := n / 10;
      assert Dec(n) == Dec(h) + [DigitChar(n % 10)];
      DecDigits(h, k - 1);
      DivDiv(n, 10, Pow10(k - 1));
      assert Dec(n)[|Dec(n)| - 1 - k] == Dec(h)[|Dec(h)| - 1 - (k - 1)];
      assert h / Pow10(k - 1) == n / Pow10(k);
    }
  }

  function Pow10(k: nat): (p: nat)
    ensures p > 0
  {
    if k == 0 then 1 else 10 * Pow10(k - 1)
  }

  lemma DivDiv(n: nat, a: nat, b: nat)
    requires a > 0 && b > 0
    ensures n / a / b == n / (a * b)
  {
    var q, r := n / a / b, n / a % b;
    assert n / a == q * b + r;
    NestedQuotient(n, a, b, q, r, n % a);
  }

  lemma NestedQuotient(n: nat, a: nat, b: nat, q: nat, r: nat, l: nat)
    requires l < a && r < b && n == (q * b + r) * a + l
    ensures n / (a * b) == q
  {
    assert n == q * (a * b) + (r * a + l) by {
      assert (q * b + r) * a == q * b * a + r * a;
      assert q * b * a == q * (b * a);
    }
    assert r * a + l < a * b by {
      MulMonotone(r + 1, b, a);
    }
    DivUnique(n, a * b, q, r * a + l);
  }

  lemma MulMonotone(x: nat, y: nat, a: nat)
    requires x <= y
    ensures x * a <= y * a
  {
    assert (y - x) * a >= 0;
  }

  lemma {:induction false} LeadingZeroKeepsValue(s: string)
    requires AllDigits(s)
    ensures DecValue("0" + s) == DecValue(s)
  {
    if s != [] {
      LeadingZeroKeepsValue(s[..|s| - 1]);
      assert ("0" + s)[..|s|] == "0" + s[..|s| - 1];
    }
  }

  /** The white space that scanf and istream skip. */
  predicate IsSpace(c: char) {
    c == ' ' || '\t' <= c <= '\r'
  }

  function SkipSpace(s: string): (r: string)
    ensures |r| <= |s|
  {
    if s != [] && IsSpace(s[0]) then SkipSpace(s[1..]) else s
  }

  /** The place of the first c in s, or |s|. */
  function IndexOf(s: string, c: char): (i: nat)
    ensures i <= |s| && c !in s[..i] && (i < |s| ==> s[i] == c)
  {
    if s == [] || s[0] == c then 0 else
      var i := 1 + IndexOf(s[1..], c);
      assert s[..i] == [s[0]] + s[1..][..i - 1];
      i
  }

  lemma {:induction false} IndexOfIs(s: string, c: char, k: nat)
    requires k < |s| && s[k] == c && forall i | 0 <= i < k :: s[i] != c
    ensures IndexOf(s, c) == k
  {
    if k > 0 {
      IndexOfIs(s[1..], c, k - 1);
    }
  }

  /** A text splits in one way only at the first separator. */
  lemma SplitUnique(a: string, c: char, b: string, a': string, b': string)
    requires c !in a && c !in a' && a + [c] + b == a' + [c] + b'
    ensures a == a' && b == b'
  {
    var s := a + [c] + b;
    IndexOfIs(s, c, |a|);
    assert s == a' + [c] + b';
    IndexOfIs(s, c, |a'|);
    assert s[..|a|] == a && s[..|a|] == a';
    assert s[|a| + 1..] == b && s[|a| + 1..] == b';
  }
}
