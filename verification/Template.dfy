/** Substituting the server address for the first "%s" of a URI
    (ServiceContext::get_stream_uri and get_snapshot_uri). */
module Template {
  import opened Text
  import opened Ipv4

  predicate TemplateAt(s: string, i: nat) {
    i + 1 < |s| && s[i] == '%' && s[i + 1] == 's'
  }

  /** std::string::find("%s"): the first occurrence, or the length if there is none. */
  function Find(s: string): (i: nat)
    ensures i <= |s| && (i < |s| ==> TemplateAt(s, i))
    ensures forall j: nat | j < i :: !TemplateAt(s, j)
  {
    if s == [] then 0
    else if TemplateAt(s, 0) then 0
    else
      var i := 1 + Find(s[1..]);
      assert forall j: nat | 0 < j :: TemplateAt(s, j) <==> TemplateAt(s[1..], j - 1);
      i
  }

  function Occurrences(s: string): nat {
    if s == [] then 0 else (if TemplateAt(s, 0) then 1 else 0) + Occurrences(s[1..])
  }

  function Substitute(s: string, r: string): string {
    var i := Find(s);
    if i < |s| then s[..i] + r + s[i + 2..] else s
  }

  /** An occurrence that arises where a and b meet. */
  function AtJoin(a: string, b: string): nat {
    if a != [] && b != [] && a[|a| - 1] == '%' && b[0] == 's' then 1 else 0
  }

  lemma {:induction false} OccurrencesAppend(a: string, b: string)
    ensures Occurrences(a + b) == Occurrences(a) + AtJoin(a, b) + Occurrences(b)
  {
    if a == [] {
      assert a + b == b;
    } else {
      OccurrencesAppend(a[1..], b);
      assert (a + b)[1..] == a[1..] + b;
      if |a| == 1 {
        assert a[1..] + b == b;
      }
    }
  }

  /** A text contains no "%s" exactly when the search finds none. */
  lemma {:induction false} NoOccurrence(s: string)
    ensures Occurrences(s) == 0 <==> Find(s) == |s|
  {
    if s != [] && !TemplateAt(s, 0) {
      NoOccurrence(s[1..]);
    }
  }

  /** The result is the text before the first "%s", the replacement, and the rest; a text
      without "%s" is unchanged. */
  lemma SubstituteParts(s: string, r: string) returns (a: string, b: string)
    ensures Occurrences(s) == 0 ==> Substitute(s, r) == s
    ensures Occurrences(s) > 0 ==>
              s == a + "%s" + b && Substitute(s, r) == a + r + b && Occurrences(a) == 0
  {
    NoOccurrence(s);
    var i := Find(s);
    a, b := s[..i], "";
    if i < |s| {
      b := s[i + 2..];
      assert s == a + "%s" + b;
      PrefixHasNone(s, i);
    }
  }

  lemma PrefixHasNone(s: string, i: nat)
    requires i <= |s| && forall j: nat | j < i :: !TemplateAt(s, j)
    ensures Occurrences(s[..i]) == 0
  {
    var a := s[..i];
    NoOccurrence(a);
    assert Find(a) < |a| ==> TemplateAt(s, Find(a));
  }

  /** How a replacement of any text changes the number of occurrences. */
  lemma SubstituteCount(s: string, r: string) returns (a: string, b: string)
    requires Occurrences(s) > 0 && r != []
    ensures s == a + "%s" + b && Substitute(s, r) == a + r + b
    ensures Occurrences(Substitute(s, r)) ==
            Occurrences(s) - 1 + AtJoin(a, r) + Occurrences(r) + AtJoin(r, b)
  {
    a, b := SubstituteParts(s, r);
    OccurrencesAround(a, b);
    OccurrencesAppend(a + r, b);
    OccurrencesAppend(a, r);
    assert (a + r)[|a + r| - 1] == r[|r| - 1];
  }

  lemma OccurrencesAround(a: string, b: string)
    ensures Occurrences(a + "%s" + b) == Occurrences(a) + 1 + Occurrences(b)
  {
    OccurrencesAppend(a, "%s" + b);
    OccurrencesAppend("%s", b);
    assert a + "%s" + b == a + ("%s" + b);
    assert "%s"[1..] == "s" && "s"[1..] == "";
    assert Occurrences("%s") == 1;
  }

  /** A dotted-decimal address takes away exactly one "%s" and creates none at the joins; a
      text without "%s" is unchanged. */
  lemma AddressSubstitution(s: string, r: string)
    requires DigitsAndDots(r)
    ensures Occurrences(s) == 0 ==> Substitute(s, r) == s
    ensures Occurrences(Substitute(s, r)) == if Occurrences(s) == 0 then 0 else Occurrences(s) - 1
  {
    if Occurrences(s) > 0 {
      var a, b := SubstituteCount(s, r);
      NoOccurrence(r);
    } else {
      var a, b := SubstituteParts(s, r);
    }
  }
}
