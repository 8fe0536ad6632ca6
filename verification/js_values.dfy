/** The JavaScript values the leaderboard component reads from a ranking entry, with the
    language rules the component relies on: truthiness, `String(v)`, `toLowerCase` and
    `trim`. */
module JsValues {
  import opened Chars

  /** A JavaScript number. Its bits are not modelled: a finite number is a real. */
  datatype Num = NaN | Finite(value: real) | Infinity(negative: bool)

  datatype JsValue =
    | Undefined
    | Null
    | Bool(b: bool)
    | Number(n: Num)
    | Str(s: string)

  /** ECMAScript truthiness: `undefined`, `null`, `false`, `0`, `NaN` and `""` are falsy. */
  predicate Truthy(v: JsValue)
  {
    match v
    case Undefined => false
    case Null => false
    case Bool(b) => b
    case Number(n) => !(n.NaN? || (n.Finite? && n.value == 0.0))
    case Str(s) => s != ""
  }

  /** `String(v)` for every value but a number, whose rendering is not modelled. */
  function ToJsString(v: JsValue): string
    requires !v.Number?
  {
    match v
    case Undefined => "undefined"
    case Null => "null"
    case Bool(b) => if b then "true" else "false"
    case Str(s) => s
  }

  /** The WhiteSpace and LineTerminator code points of ECMAScript, which `trim` removes
      and `parseFloat` skips. */
  predicate IsJsWhitespace(c: char)
  {
    c == '\t' || c == '\n' || c == '\U{000B}' || c == '\U{000C}' || c == '\r' || c == ' '
    || c == '\U{00A0}' || c == '\U{1680}' || ('\U{2000}' <= c <= '\U{200A}')
    || c == '\U{2028}' || c == '\U{2029}' || c == '\U{202F}' || c == '\U{205F}'
    || c == '\U{3000}' || c == '\U{FEFF}'
  }

  /** `String.prototype.trim`. */
  function JsTrim(s: string): (r: string)
    ensures |r| <= |s|
    ensures r != [] ==> !IsJsWhitespace(r[0]) && !IsJsWhitespace(r[|r| - 1])
  {
    var t := TrimLeft(s, IsJsWhitespace);
    var r := TrimRight(t, IsJsWhitespace);
    assert r != [] ==> r[0] == t[0];
    r
  }

  /** Every character is whitespace: `s.trim()` is empty, so `!s.trim()` holds. */
  predicate IsBlank(s: string)
  {
    forall i :: 0 <= i < |s| ==> IsJsWhitespace(s[i])
  }

  lemma BlankIffTrimsToEmpty(s: string)
    ensures IsBlank(s) <==> JsTrim(s) == ""
  {
    TrimEmptyIff(s, IsJsWhitespace);
  }

  /** `String.prototype.toLowerCase`, for the ASCII capitals. */
  function JsLower(s: string): string
  {
    AsciiLower(s)
  }

  /** Lower-casing keeps the length, leaves no ASCII capital and changes no other
      character. */
  lemma JsLowerFoldsCapitals(s: string)
    ensures |JsLower(s)| == |s|
    ensures forall i :: 0 <= i < |s| ==> !('A' <= JsLower(s)[i] <= 'Z')
    ensures forall i :: 0 <= i < |s| && !('A' <= s[i] <= 'Z') ==> JsLower(s)[i] == s[i]
  {
  }
}
