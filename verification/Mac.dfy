/** Printing and parsing of hardware addresses: the "%02x:…" format of get_hwaddr and the
    "%x:%x:%x:%x:%x:%x" scan of set_hwaddr (eth_dev_param.cpp). */
module Mac {
  import opened Text
  import opened Bits

  /** The six bytes of an Ethernet address. */
  type MacAddress = m: seq<byte> | |m| == 6 witness [0, 0, 0, 0, 0, 0]

  // ---------------------------------------------------------------- printing

  function HexDigit(d: nat): (c: char)
    requires d < 16
    ensures IsHex(c) && HexValue(c) == d
  {
    if d < 10 then ('0' as int + d) as char else ('a' as int + d - 10) as char
  }

  predicate IsHex(c: char) {
    '0' <= c <= '9' || 'a' <= c <= 'f' || 'A' <= c <= 'F'
  }

  function HexValue(c: char): (v: nat)
    requires IsHex(c)
    ensures v < 16
  {
    if '0' <= c <= '9' then c as int - '0' as int
    else if 'a' <= c <= 'f' then c as int - 'a' as int + 10
    else c as int - 'A' as int + 10
  }

  /** "%02x" */
  function HexByte(b: byte): string {
    [HexDigit(b / 16), HexDigit(b % 16)]
  }

  /** The text get_hwaddr stores for the bytes m. */
  function PrintMac(m: seq<byte>): string
    requires m != []
  {
    if |m| == 1 then HexByte(m[0]) else HexByte(m[0]) + ":" + PrintMac(m[1..])
  }

  // ---------------------------------------------------------------- scanning

  /** The length of the leading run of hexadecimal digits. */
  function HexRun(s: string): (n: nat)
    ensures n <= |s| && forall i | 0 <= i < n :: IsHex(s[i])
  {
    if s != [] && IsHex(s[0]) then 1 + HexRun(s[1..]) else 0
  }

  function HexNumber(s: string): nat
    requires forall i | 0 <= i < |s| :: IsHex(s[i])
  {
    if s == [] then 0 else 16 * HexNumber(s[..|s| - 1]) + HexValue(s[|s| - 1])
  }

  datatype Item = Item(value: int, rest: string)

  /** The digits of one `%x` conversion, after the optional sign: an optional "0x", then at
      least one hexadecimal digit. */
  function ScanDigits(s: string): (r: Option<Item>)
    ensures r.Some? ==> |r.value.rest| < |s|
  {
    var t := if |s| >= 2 && s[0] == '0' && (s[1] == 'x' || s[1] == 'X') then s[2..] else s;
    var n := HexRun(t);
    if n == 0 then None else Some(Item(HexNumber(t[..n]), t[n..]))
  }

  /** One `%x` conversion: white space, an optional sign, digits. */
  function ScanHex(s: string): (r: Option<Item>)
    ensures r.Some? ==> |r.value.rest| < |s|
  {
    var t := SkipSpace(s);
    if t != [] && t[0] == '-' then
      match ScanDigits(t[1..])
      case None => None
      case Some(it) => Some(Item(-it.value, it.rest))
    else if t != [] && t[0] == '+' then ScanDigits(t[1..])
    else ScanDigits(t)
  }

  /** The values assigned by `fields` conversions separated by colons; the scan stops at the
      first that fails, leaving the remaining variables alone. */
  function ScanFields(s: string, fields: nat): (vs: seq<int>)
    ensures |vs| <= fields
    decreases fields
  {
    if fields == 0 then []
    else match ScanHex(s)
      case None => []
      case Some(it) =>
        if it.rest != [] && it.rest[0] == ':'
        then [it.value] + ScanFields(it.rest[1..], fields - 1)
        else [it.value]
  }

  /** The six bytes set_hwaddr stores for the text s. A variable the scan did not reach keeps
      whatever value it had, given by `junk`; each is truncated to a byte. */
  function MacBytes(s: string, junk: seq<int>): MacAddress
    requires |junk| == 6
  {
    StoreBytes(ScanFields(s, 6), junk)
  }

  function StoreBytes(vs: seq<int>, junk: seq<int>): (m: seq<byte>)
    requires |vs| <= |junk| == 6
    ensures |m| == 6
  {
    var all := vs + junk[|vs|..];
    seq(6, i requires 0 <= i < 6 => all[i] % 256)
  }

  lemma StoreAllBytes(vs: seq<byte>, junk: seq<int>)
    requires |vs| == |junk| == 6
    ensures StoreBytes(vs, junk) == vs
  {
    assert vs + junk[6..] == vs;
  }

  // ---------------------------------------------------------------- round trips

  /** n fields of two hexadecimal digits each, separated by colons. */
  predicate WellFormed(s: string, n: nat) {
    n > 0 && |s| == 3 * n - 1 && IsHex(s[0]) && IsHex(s[1]) &&
    (n > 1 ==> s[2] == ':' && WellFormed(s[3..], n - 1))
  }

  function LowerChar(c: char): char {
    if 'A' <= c <= 'F' then (c as int - 'A' as int + 'a' as int) as char else c
  }

  function Lower(s: string): (t: string)
    ensures |t| == |s|
  {
    seq(|s|, i requires 0 <= i < |s| => LowerChar(s[i]))
  }

  /** A field of two digits followed by the end or a colon is scanned whole. */
  lemma ScanField(s: string)
    requires |s| >= 2 && IsHex(s[0]) && IsHex(s[1]) && (|s| > 2 ==> !IsHex(s[2]))
    ensures ScanHex(s) == Some(Item(16 * HexValue(s[0]) + HexValue(s[1]), s[2..]))
  {
    assert HexRun(s[2..]) == 0;
    assert s[1..][1..] == s[2..];
    assert HexRun(s[1..]) == 1;
    assert HexRun(s) == 2;
    assert s[..2][..1] == [s[0]] && [s[0]][..0] == [];
    assert HexNumber([s[0]]) == HexValue(s[0]);
  }

  /** The values of the fields of a well-formed text. */
  function FieldValues(s: string, n: nat): (m: seq<byte>)
    requires WellFormed(s, n)
    ensures |m| == n
  {
    [16 * HexValue(s[0]) + HexValue(s[1])] + if n > 1 then FieldValues(s[3..], n - 1) else []
  }

  lemma {:induction false} ScanWellFormed(s: string, n: nat)
    requires WellFormed(s, n)
    ensures ScanFields(s, n) == FieldValues(s, n)
  {
    ScanField(s);
    if n > 1 {
      ScanWellFormed(s[3..], n - 1);
      assert s[2..][1..] == s[3..];
    }
  }

  lemma {:induction false} PrintWellFormed(m: seq<byte>)
    requires m != []
    ensures WellFormed(PrintMac(m), |m|) && FieldValues(PrintMac(m), |m|) == m
    ensures Lower(PrintMac(m)) == PrintMac(m)
  {
    if |m| > 1 {
      PrintWellFormed(m[1..]);
      assert PrintMac(m)[3..] == PrintMac(m[1..]);
      LowerJoin(HexByte(m[0]) + ":", PrintMac(m[1..]));
    }
  }

  lemma LowerJoin(a: string, b: string)
    ensures Lower(a + b) == Lower(a) + Lower(b)
  {
  }

  lemma LowerField(s: string)
    requires |s| >= 2 && IsHex(s[0]) && IsHex(s[1])
    ensures HexByte(16 * HexValue(s[0]) + HexValue(s[1])) == Lower(s[..2])
  {
    var b := 16 * HexValue(s[0]) + HexValue(s[1]);
    assert b / 16 == HexValue(s[0]) && b % 16 == HexValue(s[1]);
    assert HexDigit(HexValue(s[0])) == LowerChar(s[0]);
    assert HexDigit(HexValue(s[1])) == LowerChar(s[1]);
  }

  lemma {:induction false} PrintFieldValues(s: string, n: nat)
    requires WellFormed(s, n)
    ensures PrintMac(FieldValues(s, n)) == Lower(s)
  {
    LowerField(s);
    if n > 1 {
      PrintFieldValues(s[3..], n - 1);
      assert FieldValues(s, n)[1..] == FieldValues(s[3..], n - 1);
      assert s == s[..2] + (":" + s[3..]);
      LowerJoin(s[..2], ":" + s[3..]);
      LowerJoin(":", s[3..]);
    } else {
      assert s[..2] == s;
    }
  }

  lemma MacBytesWellFormed(s: string, junk: seq<int>)
    requires |junk| == 6 && WellFormed(s, 6)
    ensures MacBytes(s, junk) == FieldValues(s, 6)
  {
    ScanWellFormed(s, 6);
    StoreAllBytes(FieldValues(s, 6), junk);
  }

  /** What a number can start with. */
  predicate StartsNumber(c: char) {
    IsHex(c) || IsSpace(c) || c == '+' || c == '-'
  }

  /** From a text that does not start with a number nothing is scanned: the bytes are what the
      variables held before, cut to a byte. */
  lemma NothingScanned(s: string, junk: seq<int>, i: nat)
    requires |junk| == 6 && (s == "" || !StartsNumber(s[0])) && i < 6
    ensures MacBytes(s, junk)[i] == junk[i] % 256
  {
    assert ScanFields(s, 6) == [];
  }

  lemma HexDigits(d: nat)
    requires d < 16
    ensures HexDigit(d) == "0123456789abcdef"[d]
  {
  }

  /** The printed bytes by place: two hexadecimal digits each, the high one first, and colons
      between them. */
  lemma {:induction false} PrintedAt(m: seq<byte>, i: nat)
    requires i < |m|
    ensures |PrintMac(m)| == 3 * |m| - 1
    ensures PrintMac(m)[3 * i] == HexDigit(m[i] / 16) && PrintMac(m)[3 * i + 1] == HexDigit(m[i] % 16)
    ensures i + 1 < |m| ==> PrintMac(m)[3 * i + 2] == ':'
  {
    var p := PrintMac(m);
    if |m| > 1 {
      var rest := PrintMac(m[1..]);
      PrintedAt(m[1..], if i > 0 then i - 1 else 0);
      assert p == [p[0], p[1], ':'] + rest;
      if i > 0 {
        assert p[3 * i] == rest[3 * (i - 1)] && p[3 * i + 1] == rest[3 * (i - 1) + 1];
        assert i + 1 < |m| ==> p[3 * i + 2] == rest[3 * (i - 1) + 2];
      }
    }
  }

  /** Six bytes print as seventeen characters, and parsing the text gives the bytes back,
      whatever the variables held before. */
  lemma MacRoundTrip(m: MacAddress, junk: seq<int>)
    requires |junk| == 6
    ensures |PrintMac(m)| == 17
    ensures MacBytes(PrintMac(m), junk) == m
  {
    PrintWellFormed(m);
    MacBytesWellFormed(PrintMac(m), junk);
  }

  /** Printing the parse of a well-formed text gives its lower-case form, which parsing and
      printing leave alone. */
  lemma MacNormalForm(s: string, junk: seq<int>, junk': seq<int>)
    requires |junk| == |junk'| == 6 && WellFormed(s, 6)
    ensures PrintMac(MacBytes(s, junk)) == Lower(s)
    ensures PrintMac(MacBytes(Lower(s), junk')) == Lower(s)
  {
    MacBytesWellFormed(s, junk);
    PrintFieldValues(s, 6);
    MacRoundTrip(FieldValues(s, 6), junk');
  }
}
