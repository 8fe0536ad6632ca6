/** The Python string operations the two maintenance scripts apply to the lines of their
    input files: `str.strip()`, `str.split()`, `" ".join(...)` and the search for the
    first tab of `str.split("\t", 1)`. */
module PyText {
  import opened Options
  import opened Chars
  import opened Sequences

  /** The characters `str.isspace` accepts, which `strip()` and `split()` treat as
      whitespace. */
  predicate IsPySpace(c: char)
  {
    ('\t' <= c <= '\r') || ('\U{001C}' <= c <= '\U{001F}') || c == ' '
    || c == '\U{0085}' || c == '\U{00A0}' || c == '\U{1680}' || ('\U{2000}' <= c <= '\U{200A}')
    || c == '\U{2028}' || c == '\U{2029}' || c == '\U{202F}' || c == '\U{205F}' || c == '\U{3000}'
  }

  predicate NoSpace(s: string)
  {
    forall i :: 0 <= i < |s| ==> !IsPySpace(s[i])
  }

  /** `str.strip()` with no argument. */
  function Strip(s: string): (r: string)
    ensures |r| <= |s|
    ensures r != [] ==> !IsPySpace(r[0]) && !IsPySpace(r[|r| - 1])
  {
    var t := TrimLeft(s, IsPySpace);
    var r := TrimRight(t, IsPySpace);
    assert r != [] ==> r[0] == t[0];
    r
  }

  /** The length of the run of non-whitespace characters `s` starts with. */
  function TokenLength(s: string): (n: nat)
    ensures n <= |s| && NoSpace(s[..n])
    ensures n < |s| ==> IsPySpace(s[n])
    decreases |s|
  {
    if s == [] || IsPySpace(s[0]) then 0
    else
      var n := 1 + TokenLength(s[1..]);
      assert s[..n] == [s[0]] + s[1..][..n - 1];
      n
  }

  /** `str.split()` with no argument: the maximal runs of non-whitespace characters. */
  function Split(s: string): (r: seq<string>)
    ensures forall k :: 0 <= k < |r| ==> r[k] != "" && NoSpace(r[k])
    decreases |s|
  {
    if s == [] then []
    else if IsPySpace(s[0]) then Split(s[1..])
    else
      var n := TokenLength(s);
      [s[..n]] + Split(s[n..])
  }

  /** `" ".join(parts)`. */
  function Join(parts: seq<string>): (r: string)
    ensures parts != [] ==> parts[0] <= r
    decreases |parts|
  {
    if parts == [] then ""
    else if |parts| == 1 then parts[0]
    else parts[0] + " " + Join(parts[1..])
  }

  /** The characters of `s` that are not whitespace, in order. */
  function NonSpace(s: string): string
  {
    Keep(s, KeepNonSpace)
  }

  function KeepNonSpace(c: char): Option<char>
  {
    if IsPySpace(c) then None else Some(c)
  }

  function Concat(parts: seq<string>): string
    decreases |parts|
  {
    if parts == [] then "" else parts[0] + Concat(parts[1..])
  }

  lemma NonSpaceOfToken(s: string)
    requires NoSpace(s)
    ensures NonSpace(s) == s
    decreases |s|
  {
    if s != [] {
      NonSpaceOfToken(s[1..]);
    }
  }

  /** Splitting loses only whitespace: the tokens, put back together, are the
      non-whitespace characters of `s` in order. */
  lemma {:induction false} SplitKeepsText(s: string)
    ensures Concat(Split(s)) == NonSpace(s)
    decreases |s|
  {
    if s == [] {
    } else if IsPySpace(s[0]) {
      SplitKeepsText(s[1..]);
    } else {
      var n := TokenLength(s);
      SplitKeepsText(s[n..]);
      NonSpaceOfTokenThen(s, n);
      assert Concat(Split(s)) == s[..n] + Concat(Split(s[n..]));
    }
  }

  lemma NonSpaceOfTokenThen(t: string, n: nat)
    requires n <= |t| && NoSpace(t[..n])
    ensures NonSpace(t) == t[..n] + NonSpace(t[n..])
  {
    assert t == t[..n] + t[n..];
    KeepAppend(t[..n], t[n..], KeepNonSpace);
    NonSpaceOfToken(t[..n]);
  }

  /** Splitting yields no token exactly when every character is whitespace. */
  lemma {:induction false} SplitEmptyIffSpaces(s: string)
    ensures Split(s) == [] <==> forall i :: 0 <= i < |s| ==> IsPySpace(s[i])
    decreases |s|
  {
    if s != [] && IsPySpace(s[0]) {
      SplitEmptyIffSpaces(s[1..]);
      assert forall i :: 1 <= i < |s| ==> s[i] == s[1..][i - 1];
    }
  }

  /** Splitting yields no token exactly when stripping leaves nothing. */
  lemma SplitEmptyIffBlank(s: string)
    ensures Split(s) == [] <==> Strip(s) == ""
  {
    TrimEmptyIff(s, IsPySpace);
    SplitEmptyIffSpaces(s);
  }

  /** A line that does not strip to nothing has at least one token. */
  lemma StripHasTokens(s: string)
    requires Strip(s) != ""
    ensures Split(Strip(s)) != []
  {
    var t := TrimLeft(s, IsPySpace);
    var r := Strip(s);
    assert r == TrimRight(t, IsPySpace);
    assert r[0] == t[0];
    SplitEmptyIffSpaces(r);
  }

  /** Every character of `s` is a space or a non-whitespace character, no two spaces are
      adjacent, and `s` neither starts nor ends with one. */
  ghost predicate SingleSpaced(s: string)
  {
    (forall i :: 0 <= i < |s| && IsPySpace(s[i]) ==> s[i] == ' ') &&
    (forall i :: 0 <= i < |s| - 1 && s[i] == ' ' ==> s[i + 1] != ' ') &&
    (s != [] ==> s[0] != ' ' && s[|s| - 1] != ' ')
  }

  /** Joining non-empty tokens with single spaces gives a single-spaced string that
      starts and ends with a token character. */
  lemma {:induction false} JoinIsSingleSpaced(parts: seq<string>)
    requires forall k :: 0 <= k < |parts| ==> parts[k] != "" && NoSpace(parts[k])
    ensures SingleSpaced(Join(parts))
    ensures Join(parts) != [] ==> !IsPySpace(Join(parts)[0]) && !IsPySpace(Join(parts)[|Join(parts)| - 1])
    ensures Join(parts) == [] <==> parts == []
    decreases |parts|
  {
    if |parts| > 1 {
      var head, rest := parts[0], Join(parts[1..]);
      JoinIsSingleSpaced(parts[1..]);
      var s := Join(parts);
      assert s == head + " " + rest;
      var m := |head|;
      forall i | 0 <= i < |s| && IsPySpace(s[i]) ensures s[i] == ' ' {
        if i > m { assert s[i] == rest[i - m - 1]; }
      }
      forall i | 0 <= i < |s| - 1 && s[i] == ' ' ensures s[i + 1] != ' ' {
        if i == m { assert s[i + 1] == rest[0]; }
        else if i > m { assert s[i] == rest[i - m - 1] && s[i + 1] == rest[i - m]; }
      }
      assert s[0] == head[0] && s[|s| - 1] == rest[|rest| - 1];
    } else if |parts| == 1 {
      assert Join(parts) == parts[0];
    }
  }

  /** A leading whitespace character, of any kind `isspace` accepts, is dropped. */
  lemma SplitAfterSpace(c: char, s: string)
    requires IsPySpace(c)
    ensures Split([c] + s) == Split(s)
  {
    assert ([c] + s)[0] == c && ([c] + s)[1..] == s;
  }

  lemma {:induction false} TokenLengthOf(head: string, rest: string)
    requires head != "" && NoSpace(head)
    requires rest == "" || IsPySpace(rest[0])
    ensures TokenLength(head + rest) == |head|
    decreases |head|
  {
    var s := head + rest;
    assert s[0] == head[0] && s[1..] == head[1..] + rest;
    if |head| > 1 {
      TokenLengthOf(head[1..], rest);
    }
  }

  /** A token followed by whitespace or by nothing is split off whole. */
  lemma SplitTokenThen(head: string, rest: string)
    requires head != "" && NoSpace(head)
    requires rest == "" || IsPySpace(rest[0])
    ensures Split(head + rest) == [head] + Split(rest)
  {
    var s := head + rest;
    assert s[0] == head[0];
    TokenLengthOf(head, rest);
    assert s[..|head|] == head;
    assert s[|head|..] == rest;
  }

  lemma SplitTokenSpaceThen(head: string, rest: string)
    requires head != "" && NoSpace(head)
    ensures Split(head + " " + rest) == [head] + Split(rest)
  {
    assert head + " " + rest == head + (" " + rest);
    SplitTokenThen(head, " " + rest);
    assert " " + rest == [' '] + rest;
    SplitAfterSpace(' ', rest);
  }

  /** Splitting a join of non-empty whitespace-free tokens gives the tokens back. */
  lemma {:induction false} SplitJoinRoundTrip(parts: seq<string>)
    requires forall k :: 0 <= k < |parts| ==> parts[k] != "" && NoSpace(parts[k])
    ensures Split(Join(parts)) == parts
    decreases |parts|
  {
    if |parts| == 1 {
      SplitTokenThen(parts[0], "");
      assert parts[0] + "" == parts[0];
    } else if |parts| > 1 {
      var head, tail := parts[0], parts[1..];
      forall k | 0 <= k < |tail| ensures tail[k] != "" && NoSpace(tail[k]) {
        assert tail[k] == parts[k + 1];
      }
      SplitJoinRoundTrip(tail);
      var rest := Join(tail);
      assert Join(parts) == head + " " + rest;
      SplitTokenSpaceThen(head, rest);
      assert parts == [head] + tail;
    }
  }

  /** The position of the first occurrence of `c` in `s`, if any. */
  function FirstIndexOf(s: string, c: char): (r: Option<nat>)
    ensures r.None? <==> c !in s
    ensures r.Some? ==> r.value < |s| && s[r.value] == c && c !in s[..r.value]
    decreases |s|
  {
    if s == [] then None
    else if s[0] == c then Some(0)
    else match FirstIndexOf(s[1..], c)
      case None => None
      case Some(k) =>
        assert s[..k + 1] == [s[0]] + s[1..][..k];
        Some(k + 1)
  }
}
