/** The time-zone text of ServiceContext::get_time_zone. */
module TimeZone {
  import opened Text

  /** The quotient of C, truncated toward zero. */
  function TruncDiv(a: int, b: int): int
    requires b > 0
  {
    if a >= 0 then a / b else -(-a / b)
  }

  /** The magnitude of C's remainder. */
  function AbsRem(a: int, b: int): nat
    requires b > 0
  {
    if a >= 0 then a % b else -a % b
  }

  function Pad2(s: string): string {
    if |s| < 2 then "0" + s else s
  }

  function Abs(x: int): nat {
    if x < 0 then -x else x
  }

  /** setfill('0') << internal << setw(3) << showpos << hh */
  function HourField(hh: int): string {
    [if hh < 0 then '-' else '+'] + Pad2(Dec(Abs(hh)))
  }

  /** The text of an hour and a minute number. */
  function OffsetText(hh: int, mm: nat): string {
    HourField(hh) + [':'] + Pad2(Dec(mm))
  }

  // Formats 0 to 5: [+|-]hh:mm for UTC and, negated, for GMT; the two with their names in front;
  // the environment variable TZ; TZ_ONVIF.
  const TZ_UTC_OFFSET := 0
  const TZ_CNT_FORMATS := 6

  /** A sign, h hours and m minutes, each number written with two digits at least. */
  ghost predicate IsClock(text: string, sign: char, h: nat, m: nat) {
    text == [sign] + (if h < 10 then "0" else "") + Dec(h) + ":" + (if m < 10 then "0" else "") + Dec(m)
  }

  /** The text for an offset east of UTC: its hours cut off toward zero, and its seconds modulo
      60 for the minutes. */
  ghost predicate TellsOffset(text: string, offset: int) {
    if offset >= 0 then IsClock(text, '+', offset / 3600, offset % 60)
    else IsClock(text, if -offset < 3600 then '+' else '-', -offset / 3600, -offset % 60)
  }

  /** The text [+|-]hh:mm decodes, its hour is the offset in hours truncated toward zero, and
      it means the offset exactly when that is a whole number of hours. */
  ghost predicate Denotes(text: string, offset: int) {
    && Decode(text).Some?
    && TruncatedHours(offset, SignedHours(Decode(text).value))
    && (Seconds(Decode(text).value) == offset <==> offset % 3600 == 0)
  }

  /** offset is tm_gmtoff in seconds; the two environment variables may be unset. The minutes
      are the offset modulo 60, as in the source. The GMT forms denote the negated offset. */
  method TimeZoneText(format: nat, offset: int, tz: Option<string>, tzOnvif: Option<string>) returns (text: string)
    ensures format == 0 ==> text == UtcText(offset)
    ensures format == 1 ==> text == UtcText(-offset)
    ensures format == 2 ==> text == "UTC" + UtcText(offset)
    ensures format == 3 ==> text == "GMT" + UtcText(-offset)
    ensures format == 4 ==> text == if tz.Some? then tz.value else "UTC+00"
    ensures format >= 5 ==> text == if tzOnvif.Some? then tzOnvif.value else "UTC+00"
  {
    var hh := TruncDiv(offset, 3600);
    var mm := AbsRem(offset, 60);
    var utc := OffsetText(hh, mm);
    var gmt := OffsetText(-hh, mm);
    NegatedHours(offset);
    match format {
      case 0 => return utc;
      case 1 => return gmt;
      case 2 => return "UTC" + utc;
      case 3 => return "GMT" + gmt;
      case 4 => return if tz.Some? then tz.value else "UTC+00";
      case _ => return if tzOnvif.Some? then tzOnvif.value else "UTC+00";
    }
  }

  function UtcText(offset: int): string {
    OffsetText(TruncDiv(offset, 3600), AbsRem(offset, 60))
  }

  // ---------------------------------------------------------------- reading it back

  /** The fields of a text [+|-]hh:mm */
  datatype Fields = Fields(negative: bool, hours: nat, minutes: nat)

  function Decode(s: string): Option<Fields> {
    var k := IndexOf(s, ':');
    if k < 2 || k >= |s| - 1 || (s[0] != '+' && s[0] != '-') || !AllDigits(s[1..k]) || !AllDigits(s[k + 1..]) then None
    else Some(Fields(s[0] == '-', DecValue(s[1..k]), DecValue(s[k + 1..])))
  }

  function SignedHours(f: Fields): int {
    if f.negative then 0 - f.hours else f.hours
  }

  /** The offset in seconds a reader takes the fields to mean. */
  function Seconds(f: Fields): int {
    var s := 3600 * f.hours + 60 * f.minutes;
    if f.negative then 0 - s else s
  }

  lemma Pad2Value(n: nat)
    ensures AllDigits(Pad2(Dec(n))) && DecValue(Pad2(Dec(n))) == n && |Pad2(Dec(n))| >= 2
  {
    DecRoundTrip(n);
    LeadingZeroKeepsValue(Dec(n));
  }

  lemma DecodeOffsetText(hh: int, mm: nat)
    ensures Decode(OffsetText(hh, mm)) == Some(Fields(hh < 0, Abs(hh), mm))
  {
    Pad2Value(Abs(hh));
    Pad2Value(mm);
    var h, m := Pad2(Dec(Abs(hh))), Pad2(Dec(mm));
    var s := OffsetText(hh, mm);
    forall i | 0 <= i < 1 + |h| ensures s[i] != ':' {
      if i > 0 {
        assert s[i] == h[i - 1];
      }
    }
    IndexOfIs(s, ':', 1 + |h|);
    assert s[1..1 + |h|] == h;
    assert s[1 + |h| + 1..] == m;
  }

  /** Every printed offset decodes; the hour field is the offset in hours truncated toward
      zero, and the GMT form's hour is its exact negation. */
  lemma HourFields(offset: int) returns (utc: Fields, gmt: Fields)
    ensures Decode(UtcText(offset)) == Some(utc) && Decode(UtcText(-offset)) == Some(gmt)
    ensures TruncatedHours(offset, SignedHours(utc)) && SignedHours(gmt) == -SignedHours(utc)
  {
    var hh, mm := TruncDiv(offset, 3600), AbsRem(offset, 60);
    utc := DecodeForm(hh, mm);
    gmt := DecodeForm(-hh, mm);
    assert UtcText(offset) == OffsetText(hh, mm);
    NegatedHours(offset);
    TruncDivTruncates(offset, hh);
  }

  lemma DecodeForm(hh: int, mm: nat) returns (f: Fields)
    ensures Decode(OffsetText(hh, mm)) == Some(f) && SignedHours(f) == hh && f.minutes == mm
  {
    DecodeOffsetText(hh, mm);
    f := Fields(hh < 0, Abs(hh), mm);
  }

  /** The truncated quotient is the offset in hours cut off toward zero, and the only one. */
  lemma TruncDivTruncates(offset: int, h: int)
    ensures TruncatedHours(offset, h) <==> h == TruncDiv(offset, 3600)
  {
  }

  /** h whole hours fit into the offset, h + 1 do not, and h does not change its sign. */
  predicate TruncatedHours(offset: int, h: int) {
    if offset >= 0 then 0 <= 3600 * h <= offset < 3600 * h + 3600
    else 3600 * h - 3600 < offset <= 3600 * h <= 0
  }

  /** Reading the UTC form as sign, hours and minutes gives the offset back exactly when it is
      a whole number of hours. */
  lemma UtcTextRoundTrip(offset: int)
    ensures Decode(UtcText(offset)).Some?
    ensures Seconds(Decode(UtcText(offset)).value) == offset <==> offset % 3600 == 0
  {
    var hh, mm := TruncDiv(offset, 3600), AbsRem(offset, 60);
    DecodeOffsetText(hh, mm);
    OffsetArithmetic(offset);
  }

  /** Negating the hour number is negating the offset. */
  lemma NegatedHours(offset: int)
    ensures OffsetText(-TruncDiv(offset, 3600), AbsRem(offset, 60)) == UtcText(-offset)
  {
  }

  lemma OffsetTextIsClock(hh: int, mm: nat)
    ensures IsClock(OffsetText(hh, mm), if hh < 0 then '-' else '+', Abs(hh), mm)
  {
    assert |Dec(Abs(hh))| < 2 <==> Abs(hh) < 10;
    assert |Dec(mm)| < 2 <==> mm < 10;
  }

  lemma UtcTells(offset: int)
    ensures TellsOffset(UtcText(offset), offset)
  {
    OffsetTextIsClock(TruncDiv(offset, 3600), AbsRem(offset, 60));
  }

  lemma UtcDenotes(offset: int)
    ensures Denotes(UtcText(offset), offset)
  {
    var utc, gmt := HourFields(offset);
    UtcTextRoundTrip(offset);
  }

  /** The name of a format followed by a text that tells and denotes the offset. */
  ghost predicate Says(name: string, text: string, offset: int) {
    exists clock :: text == name + clock && TellsOffset(clock, offset) && Denotes(clock, offset)
  }

  lemma UtcSays(name: string, text: string, offset: int)
    requires text == name + UtcText(offset)
    ensures Says(name, text, offset)
  {
    UtcTells(offset);
    UtcDenotes(offset);
  }

  /** Five and a half hours east: the minutes are lost. */
  lemma HalfHourExample()
    ensures UtcText(19800) == "+05:00"
    ensures Seconds(Decode(UtcText(19800)).value) == 18000 != 19800
  {
    assert Dec(5) == "5" && Dec(0) == "0";
    assert UtcText(19800) == OffsetText(5, 0);
    DecodeOffsetText(5, 0);
  }

  lemma OffsetArithmetic(offset: int)
    ensures var hh, mm := TruncDiv(offset, 3600), AbsRem(offset, 60);
            Seconds(Fields(hh < 0, Abs(hh), mm)) == offset <==> offset % 3600 == 0
  {
    if offset >= 0 {
      MinuteField(offset);
    } else {
      MinuteField(-offset);
      NegatedMultiple(-offset);
    }
  }

  lemma NegatedMultiple(n: nat)
    ensures (0 - n) % 3600 == 0 <==> n % 3600 == 0
  {
  }

  /** The printed minutes are right only if there are none. */
  lemma MinuteField(n: nat)
    ensures n == 3600 * (n / 3600) + 60 * (n % 60) <==> n % 3600 == 0
    ensures n > 0 && n / 3600 == 0 ==> n % 3600 != 0
    ensures n % 3600 == 0 ==> n % 60 == 0
  {
    var q, r := n / 3600, n % 3600;
    assert n == 60 * (60 * q + r / 60) + r % 60;
    assert n % 60 == r % 60;
  }
}
