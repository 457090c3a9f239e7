/** StreamProfile: a media profile filled field by field by setters that may fail
    (ServiceContext.cpp). */
module StreamProfiles {
  import opened Text
  import opened Scan

  /** A copy of a StreamProfile object. */
  datatype Profile = Profile(name: string, width: int, height: int, url: string, snapurl: string,
                             encoding: int, strErr: string)

  const JPEG := 0
  const MPEG4 := 1
  const H264 := 2
  const UNSET := -1

  const FRESH := Profile("", UNSET, UNSET, "", "", UNSET, "")

  /** The calls that change a profile; a NULL argument is None. `unset` is what the local
      variable of set_width and set_height holds before it is read into. */
  datatype Op =
    | SetName(s: Option<string>)
    | SetWidth(text: string, unset: int)
    | SetHeight(text: string, unset: int)
    | SetUrl(s: Option<string>)
    | SetSnapurl(s: Option<string>)
    | SetType(text: string)
    | Clear

  // ---------------------------------------------------------------- specification

  predicate DimensionOk(n: int) {
    100 <= n < 10000
  }

  function EncodingOf(text: string): Option<int> {
    if text == "JPEG" then Some(JPEG)
    else if text == "MPEG4" then Some(MPEG4)
    else if text == "H264" then Some(H264)
    else None
  }

  function Fails(op: Op): bool {
    match op
    case SetName(s) => s.None?
    case SetWidth(text, unset) => !DimensionOk(ReadInt(text, unset))
    case SetHeight(text, unset) => !DimensionOk(ReadInt(text, unset))
    case SetUrl(s) => s.None?
    case SetSnapurl(s) => s.None?
    case SetType(text) => EncodingOf(text).None?
    case Clear => false
  }

  function ErrorText(op: Op): string {
    match op
    case SetName(_) => "Name is empty"
    case SetWidth(_, _) => "width is bad, correct range: 100-10000"
    case SetHeight(_, _) => "height is bad, correct range: 100-10000"
    case SetType(_) => "type dont support"
    case _ => "URL is empty"
  }

  /** A failing call only sets the error text; clear() keeps it. */
  function Apply(p: Profile, op: Op): Profile {
    if Fails(op) then p.(strErr := ErrorText(op))
    else match op
      case SetName(s) => p.(name := s.value)
      case SetWidth(text, unset) => p.(width := ReadInt(text, unset))
      case SetHeight(text, unset) => p.(height := ReadInt(text, unset))
      case SetUrl(s) => p.(url := s.value)
      case SetSnapurl(s) => p.(snapurl := s.value)
      case SetType(text) => p.(encoding := EncodingOf(text).value)
      case Clear => FRESH.(strErr := p.strErr)
  }

  predicate IsValid(p: Profile) {
    p.name != "" && p.url != "" && p.width != UNSET && p.height != UNSET && p.encoding != UNSET
  }

  // ---------------------------------------------------------------- implementation

  class StreamProfile {
    var name: string
    var width: int
    var height: int
    var url: string
    var snapurl: string
    var encoding: int
    var strErr: string

    function Value(): Profile
      reads this
    {
      Profile(name, width, height, url, snapurl, encoding, strErr)
    }

    constructor ()
      ensures name == url == snapurl == strErr == "" && width == height == encoding == -1
    {
      name, url, snapurl, strErr := "", "", "", "";
      width, height, encoding := -1, -1, -1;
    }

    method DoSetName(newVal: Option<string>) returns (ok: bool)
      modifies this
      ensures ok <==> newVal.Some?
      ensures Value() == if ok then old(Value()).(name := newVal.value) else old(Value()).(strErr := "Name is empty")
      ensures ok == !Fails(SetName(newVal)) && Value() == Apply(old(Value()), SetName(newVal))
    {
      if newVal.None? {
        strErr := "Name is empty";
        return false;
      }
      name := newVal.value;
      return true;
    }

    method DoSetWidth(newVal: string, unset: int) returns (ok: bool)
      modifies this
      ensures ok <==> 100 <= ReadInt(newVal, unset) < 10000
      ensures Value() == if ok then old(Value()).(width := ReadInt(newVal, unset))
                         else old(Value()).(strErr := "width is bad, correct range: 100-10000")
      ensures forall n: nat | newVal == Dec(n) :: (ok <==> 100 <= n < 10000) && (ok ==> width == n)
      ensures ok == !Fails(SetWidth(newVal, unset)) && Value() == Apply(old(Value()), SetWidth(newVal, unset))
    {
      var tmp := ReadInt(newVal, unset);
      forall n: nat | newVal == Dec(n) ensures tmp == if n <= INT_MAX then n else INT_MAX {
        ReadDecimal(n, unset);
      }
      if tmp < 100 || tmp >= 10000 {
        strErr := "width is bad, correct range: 100-10000";
        return false;
      }
      width := tmp;
      return true;
    }

    method DoSetHeight(newVal: string, unset: int) returns (ok: bool)
      modifies this
      ensures ok <==> 100 <= ReadInt(newVal, unset) < 10000
      ensures Value() == if ok then old(Value()).(height := ReadInt(newVal, unset))
                         else old(Value()).(strErr := "height is bad, correct range: 100-10000")
      ensures forall n: nat | newVal == Dec(n) :: (ok <==> 100 <= n < 10000) && (ok ==> height == n)
      ensures ok == !Fails(SetHeight(newVal, unset)) && Value() == Apply(old(Value()), SetHeight(newVal, unset))
    {
      var tmp := ReadInt(newVal, unset);
      forall n: nat | newVal == Dec(n) ensures tmp == if n <= INT_MAX then n else INT_MAX {
        ReadDecimal(n, unset);
      }
      if tmp < 100 || tmp >= 10000 {
        strErr := "height is bad, correct range: 100-10000";
        return false;
      }
      height := tmp;
      return true;
    }

    method DoSetUrl(newVal: Option<string>) returns (ok: bool)
      modifies this
      ensures ok <==> newVal.Some?
      ensures Value() == if ok then old(Value()).(url := newVal.value) else old(Value()).(strErr := "URL is empty")
      ensures ok == !Fails(SetUrl(newVal)) && Value() == Apply(old(Value()), SetUrl(newVal))
    {
      if newVal.None? {
        strErr := "URL is empty";
        return false;
      }
      url := newVal.value;
      return true;
    }

    method DoSetSnapurl(newVal: Option<string>) returns (ok: bool)
      modifies this
      ensures ok <==> newVal.Some?
      ensures Value() == if ok then old(Value()).(snapurl := newVal.value) else old(Value()).(strErr := "URL is empty")
      ensures ok == !Fails(SetSnapurl(newVal)) && Value() == Apply(old(Value()), SetSnapurl(newVal))
    {
      if newVal.None? {
        strErr := "URL is empty";
        return false;
      }
      snapurl := newVal.value;
      return true;
    }

    method DoSetType(newVal: string) returns (ok: bool)
      modifies this
      ensures newVal == "JPEG" ==> ok && Value() == old(Value()).(encoding := 0)
      ensures newVal == "MPEG4" ==> ok && Value() == old(Value()).(encoding := 1)
      ensures newVal == "H264" ==> ok && Value() == old(Value()).(encoding := 2)
      ensures newVal !in {"JPEG", "MPEG4", "H264"} ==>
                !ok && Value() == old(Value()).(strErr := "type dont support")
      ensures ok == !Fails(SetType(newVal)) && Value() == Apply(old(Value()), SetType(newVal))
    {
      if newVal == "JPEG" {
        encoding := JPEG;
      } else if newVal == "MPEG4" {
        encoding := MPEG4;
      } else if newVal == "H264" {
        encoding := H264;
      } else {
        strErr := "type dont support";
        return false;
      }
      return true;
    }

    method DoClear()
      modifies this
      ensures name == url == snapurl == "" && width == height == encoding == -1 && strErr == old(strErr)
      ensures Value() == Apply(old(Value()), Clear)
    {
      name, url, snapurl := "", "", "";
      width, height, encoding := -1, -1, -1;
    }
  }

  // ---------------------------------------------------------------- every reachable state

  predicate InRange(p: Profile) {
    && (p.width == UNSET || DimensionOk(p.width))
    && (p.height == UNSET || DimensionOk(p.height))
    && (p.encoding == UNSET || p.encoding == JPEG || p.encoding == MPEG4 || p.encoding == H264)
  }

  function ApplyAll(p: Profile, ops: seq<Op>): Profile
    decreases |ops|
  {
    if ops == [] then p else ApplyAll(Apply(p, ops[0]), ops[1..])
  }

  /** Whatever texts are parsed, and whatever the uninitialised locals hold, the dimensions are
      unset or in range and the encoding is unset or one of the three. */
  lemma {:induction false} ReachableInRange(p: Profile, ops: seq<Op>)
    requires InRange(p)
    ensures InRange(ApplyAll(p, ops))
    decreases |ops|
  {
    if ops != [] {
      ReachableInRange(Apply(p, ops[0]), ops[1..]);
    }
  }

  /** A profile is valid only with in-range dimensions and one of the three encodings. */
  lemma ReachableValid(ops: seq<Op>)
    ensures var p := ApplyAll(FRESH, ops);
            IsValid(p) ==> 100 <= p.width < 10000 && 100 <= p.height < 10000 && 0 <= p.encoding <= 2
  {
    ReachableInRange(FRESH, ops);
  }

  /** The upper bound the message names is itself refused. */
  lemma UpperBoundExample(unset: int)
    ensures Apply(FRESH, SetWidth("10000", unset)) == FRESH.(strErr := "width is bad, correct range: 100-10000")
    ensures Apply(FRESH, SetWidth("9999", unset)) == FRESH.(width := 9999)
  {
    assert IntText(10000) == "10000" && IntText(9999) == "9999";
    ReadIntRoundTrip(10000, unset);
    ReadIntRoundTrip(9999, unset);
  }
}
