/** Character and string helpers shared by the JavaScript and the Python text models:
    trimming with a given whitespace class, ASCII case folding and decimal digits. */
module Chars {

  predicate IsDigit(c: char) { '0' <= c <= '9' }

  predicate AllDigits(s: string) { forall i :: 0 <= i < |s| ==> IsDigit(s[i]) }

  function AsciiLowerChar(c: char): char
  {
    if 'A' <= c <= 'Z' then (c as int + 32) as char else c
  }

  /** Lower-cases the ASCII capitals of `s` and leaves every other character alone. */
  function AsciiLower(s: string): (r: string)
    ensures |r| == |s|
    ensures forall i :: 0 <= i < |s| ==> r[i] == AsciiLowerChar(s[i])
  {
    seq(|s|, i requires 0 <= i < |s| => AsciiLowerChar(s[i]))
  }

  /** `s` without its leading characters of class `isSpace`. */
  function TrimLeft(s: string, isSpace: char -> bool): (r: string)
    ensures |r| <= |s| && r == s[|s| - |r|..]
    ensures forall i :: 0 <= i < |s| - |r| ==> isSpace(s[i])
    ensures r != [] ==> !isSpace(r[0])
    decreases |s|
  {
    if s != [] && isSpace(s[0]) then TrimLeft(s[1..], isSpace) else s
  }

  /** `s` without its trailing characters of class `isSpace`. */
  function TrimRight(s: string, isSpace: char -> bool): (r: string)
    ensures |r| <= |s| && r == s[..|r|]
    ensures forall i :: |r| <= i < |s| ==> isSpace(s[i])
    ensures r != [] ==> !isSpace(r[|r| - 1])
    decreases |s|
  {
    if s != [] && isSpace(s[|s| - 1]) then TrimRight(s[..|s| - 1], isSpace) else s
  }

  /** `s` without leading and trailing characters of class `isSpace`. */
  function Trim(s: string, isSpace: char -> bool): (r: string)
  {
    TrimRight(TrimLeft(s, isSpace), isSpace)
  }

  /** Trimming leaves nothing exactly when every character is whitespace. */
  lemma TrimEmptyIff(s: string, isSpace: char -> bool)
    ensures Trim(s, isSpace) == [] <==> forall i :: 0 <= i < |s| ==> isSpace(s[i])
  {
  }

  /** What trimming leaves starts and ends with a non-whitespace character, and each of
      its characters is one of `s` at a fixed offset. */
  lemma TrimEnds(s: string, isSpace: char -> bool) returns (lead: nat, r: string)
    ensures r == Trim(s, isSpace)
    ensures lead + |r| <= |s|
    ensures forall i :: 0 <= i < |r| ==> r[i] == s[lead + i]
    ensures r != [] ==> !isSpace(r[0]) && !isSpace(r[|r| - 1])
  {
    var t := TrimLeft(s, isSpace);
    r := TrimRight(t, isSpace);
    lead := |s| - |t|;
    SliceOfSlice(s, t, r, lead);
    PrefixKeepsFirst(t, r, isSpace);
  }

  lemma PrefixKeepsFirst(t: string, r: string, isSpace: char -> bool)
    requires |r| <= |t| && r == t[..|r|] && (t != [] ==> !isSpace(t[0]))
    ensures r != [] ==> !isSpace(r[0])
  {
  }

  lemma SliceOfSlice(s: string, t: string, r: string, lead: nat)
    requires lead <= |s| && t == s[lead..] && |r| <= |t| && r == t[..|r|]
    ensures lead + |r| <= |s|
    ensures forall i :: 0 <= i < |r| ==> r[i] == s[lead + i]
  {
  }

  /** A slice with only whitespace around it, which starts and ends with a non-whitespace
      character, is what trimming leaves. */
  lemma TrimOfPadded(s: string, lead: nat, end: nat, isSpace: char -> bool)
    requires lead < end <= |s|
    requires !isSpace(s[lead]) && !isSpace(s[end - 1])
    requires forall i :: 0 <= i < lead ==> isSpace(s[i])
    requires forall i :: end <= i < |s| ==> isSpace(s[i])
    ensures Trim(s, isSpace) == s[lead..end]
  {
    TrimLeftOfPadded(s, lead, isSpace);
    var t := s[lead..];
    TrimRightOfShifted(s, lead, end, isSpace);
    assert Trim(s, isSpace) == TrimRight(t, isSpace);
  }

  lemma TrimRightOfShifted(s: string, lead: nat, end: nat, isSpace: char -> bool)
    requires lead < end <= |s| && !isSpace(s[end - 1])
    requires forall i :: end <= i < |s| ==> isSpace(s[i])
    ensures TrimRight(s[lead..], isSpace) == s[lead..end]
  {
    var t := s[lead..];
    assert t[end - lead - 1] == s[end - 1];
    forall i | end - lead <= i < |t| ensures isSpace(t[i]) {
      assert t[i] == s[i + lead];
    }
    TrimRightOfPadded(t, end - lead, isSpace);
    assert t[..end - lead] == s[lead..end];
  }

  lemma {:induction false} TrimLeftOfPadded(s: string, lead: nat, isSpace: char -> bool)
    requires lead < |s| && !isSpace(s[lead])
    requires forall i :: 0 <= i < lead ==> isSpace(s[i])
    ensures TrimLeft(s, isSpace) == s[lead..]
    decreases lead
  {
    if lead > 0 {
      assert s[1..][lead - 1] == s[lead];
      TrimLeftOfPadded(s[1..], lead - 1, isSpace);
      assert s[1..][lead - 1..] == s[lead..];
    }
  }

  lemma {:induction false} TrimRightOfPadded(s: string, end: nat, isSpace: char -> bool)
    requires 0 < end <= |s| && !isSpace(s[end - 1])
    requires forall i :: end <= i < |s| ==> isSpace(s[i])
    ensures TrimRight(s, isSpace) == s[..end]
    decreases |s| - end
  {
    if end < |s| {
      var p := s[..|s| - 1];
      assert p[end - 1] == s[end - 1];
      TrimRightOfPadded(p, end, isSpace);
      assert p[..end] == s[..end];
    }
  }

  function DigitChar(d: nat): (c: char)
    requires d < 10
    ensures IsDigit(c) && c as int - '0' as int == d
  {
    ('0' as int + d) as char
  }

  /** Decimal rendering of a natural number, without leading zeros (Python `str` of an int). */
  function NatToString(n: nat): (s: string)
    ensures s != [] && AllDigits(s)
    ensures |s| > 1 ==> s[0] != '0'
    decreases n
  {
    if n < 10 then [DigitChar(n)] else NatToString(n / 10) + [DigitChar(n % 10)]
  }

  /** The value of a string of decimal digits, read most significant digit first. */
  function DigitsValue(s: string): nat
    requires AllDigits(s)
    decreases |s|
  {
    if s == [] then 0
    else DigitsValue(s[..|s| - 1]) * 10 + (s[|s| - 1] as int - '0' as int)
  }

  /** Reading back a rendered natural number gives the number. */
  lemma {:induction false} NatToStringRoundTrip(n: nat)
    ensures DigitsValue(NatToString(n)) == n
    decreases n
  {
    var s := NatToString(n);
    if n >= 10 {
      NatToStringRoundTrip(n / 10);
      assert s[..|s| - 1] == NatToString(n / 10);
    }
  }
}
