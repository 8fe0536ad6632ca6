/** `formatPrice` of the leaderboard component (src/SteamRankKorea.jsx): the classification
    of a ranking entry's raw `price` into one of four display forms. */
module PriceFormat {
  import opened Chars
  import opened Options
  import opened JsValues

  /** The label shown for a falsy price. */
  const UnknownText: string := "가격 정보 없음"
  /** The label shown for the literal token "free", in any letter case. */
  const FreeText: string := "무료 플레이"

  /** The number `parseFloat` found: the decimal literal it read from a string, or the
      number itself when the price already was one. Its `${num}` rendering is not modelled. */
  datatype Amount = Literal(text: string) | NumberValue(n: Num)

  /** The four outcomes of `formatPrice`: the unknown label, the free-to-play label,
      "$" followed by the parsed number, or the raw value returned as it came. */
  datatype PriceLabel =
    | PriceUnknown
    | FreeToPlay
    | Dollars(amount: Amount)
    | AsGiven(raw: JsValue)

  function SignLength(t: string): (n: nat)
    ensures n <= 1 && n <= |t|
  {
    if t != [] && (t[0] == '+' || t[0] == '-') then 1 else 0
  }

  /** The number of consecutive decimal digits of `t` from position `i`. */
  function DigitRun(t: string, i: nat): (n: nat)
    requires i <= |t|
    ensures i + n <= |t|
    ensures forall k :: i <= k < i + n ==> IsDigit(t[k])
    ensures i + n < |t| ==> !IsDigit(t[i + n])
    decreases |t| - i
  {
    if i < |t| && IsDigit(t[i]) then 1 + DigitRun(t, i + 1) else 0
  }

  /** Where a decimal literal whose mantissa ends at `i` ends: after an exponent part
      (`e` or `E`, an optional sign, at least one digit) when one follows, else at `i`. */
  function ExponentEnd(t: string, i: nat): (e: nat)
    requires i <= |t|
    ensures i <= e <= |t|
  {
    if i < |t| && (t[i] == 'e' || t[i] == 'E') then
      var j := i + 1 + SignLength(t[i + 1..]);
      var d := DigitRun(t, j);
      if d > 0 then j + d else i
    else i
  }

  /** `t` begins with a decimal literal that `parseFloat` accepts: an optional sign, then
      "Infinity", a digit, or a point followed by a digit. */
  predicate StartsNumeric(t: string)
  {
    var i := SignLength(t);
    "Infinity" <= t[i..]
    || (i < |t| && IsDigit(t[i]))
    || (i + 1 < |t| && t[i] == '.' && IsDigit(t[i + 1]))
  }

  /** Where the mantissa that starts at `i` ends: after its digits, then a point and more
      digits when a point follows; `i` itself when there is no digit on either side of
      the point. */
  function MantissaEnd(t: string, i: nat): (e: nat)
    requires i <= |t|
    ensures i <= e <= |t|
  {
    var d1 := DigitRun(t, i);
    var j := i + d1;
    if j < |t| && t[j] == '.' then
      var d2 := DigitRun(t, j + 1);
      if d1 == 0 && d2 == 0 then i else j + 1 + d2
    else j
  }

  /** The length of the longest prefix of `t` that is an ECMAScript StrDecimalLiteral;
      0 when `t` has none. */
  function NumericPrefixLength(t: string): (n: nat)
    ensures n <= |t|
    ensures n > 0 <==> StartsNumeric(t)
  {
    var i := SignLength(t);
    if "Infinity" <= t[i..] then i + 8
    else
      var e := MantissaEnd(t, i);
      if e == i then 0 else ExponentEnd(t, e)
  }

  /** `parseFloat(v)` when it is not NaN. A string is read after its leading whitespace;
      any other non-number is read through its `String` form. */
  function ParseFloat(v: JsValue): (r: Option<Amount>)
    ensures v.Str? && r.Some? ==>
              r.value.Literal? && r.value.text != [] && r.value.text <= TrimLeft(v.s, IsJsWhitespace)
  {
    if v.Number? then
      if v.n.NaN? then None else Some(NumberValue(v.n))
    else if v.Str? then
      LeadingLiteral(TrimLeft(v.s, IsJsWhitespace))
    else
      LeadingLiteral(TrimLeft(ToJsString(v), IsJsWhitespace))
  }

  /** The decimal literal that starts `t`, if any. */
  function LeadingLiteral(t: string): (r: Option<Amount>)
    ensures r.Some? ==> r.value.Literal? && r.value.text != [] && r.value.text <= t
  {
    var n := NumericPrefixLength(t);
    if n == 0 then None else Some(Literal(t[..n]))
  }

  /** `String(v).toLowerCase() === "free"`. The `String` form of a number is made of digits,
      a sign, a point, an exponent, "NaN" or "Infinity" and never spells "free". */
  predicate IsFreeToken(v: JsValue)
  {
    !v.Number? && JsLower(ToJsString(v)) == "free"
  }

  function FormatPrice(price: JsValue): (r: PriceLabel)
    ensures r.AsGiven? ==> r.raw == price
    ensures r.Dollars? ==> ParseFloat(price) == Some(r.amount)
  {
    if !Truthy(price) then PriceUnknown
    else if IsFreeToken(price) then FreeToPlay
    else match ParseFloat(price)
      case Some(num) => Dollars(num)
      case None => AsGiven(price)
  }

  /** The text shown for a label, given how a parsed number is rendered. */
  function DisplayText(p: PriceLabel, render: Amount -> string): (text: string)
    ensures p.Dollars? ==> text == "$" + render(p.amount)
    ensures p.AsGiven? && p.raw.Str? ==> text == p.raw.s
  {
    match p
    case PriceUnknown => UnknownText
    case FreeToPlay => FreeText
    case Dollars(num) => "$" + render(num)
    case AsGiven(raw) => if raw.Str? then raw.s else ""
  }

  /** Every falsy price, and only those, shows as unknown. */
  lemma UnknownExactlyWhenFalsy(price: JsValue)
    ensures FormatPrice(price) == PriceUnknown <==> !Truthy(price)
  {
  }

  /** A string price is free-to-play exactly when the whole string is "free" up to letter
      case. */
  lemma FreeExactlyWhenToken(s: string)
    ensures FormatPrice(Str(s)) == FreeToPlay <==> JsLower(s) == "free"
  {
    if s == "" {
      assert JsLower(s) == "";
    } else {
      assert Truthy(Str(s));
      assert IsFreeToken(Str(s)) <==> JsLower(s) == "free";
    }
  }

  /** "FREE" is free-to-play: the comparison ignores letter case. */
  lemma UpperCaseFreeIsFree(t: string)
    requires t == "FREE"
    ensures FormatPrice(Str(t)) == FreeToPlay
  {
    var l := JsLower(t);
    assert l[0] == 'f' && l[1] == 'r' && l[2] == 'e' && l[3] == 'e';
    assert l == "free";
    FreeExactlyWhenToken(t);
  }

  /** " free" is not free-to-play: the comparison is on the whole string, and having no
      numeric prefix either, the value is returned verbatim. */
  lemma PaddedFreeIsVerbatim(t: string)
    requires t == " free"
    ensures FormatPrice(Str(t)) == AsGiven(Str(t))
  {
    assert JsLower(t) != "free" by { assert JsLower(t)[0] == ' '; }
    TrimLeftOfPadded(t, 1, IsJsWhitespace);
    var rest := t[1..];
    assert !StartsNumeric(rest) by {
      assert rest[0] == 'f';
      assert !("Infinity" <= rest) by { assert rest[0] != "Infinity"[0]; }
    }
    DollarsExactlyWhenNumeric(t);
  }

  /** A string price that is neither falsy nor free gets the "$" form exactly when,
      after its leading whitespace, it starts with a decimal number, and the number is
      the longest decimal literal found there; otherwise it is returned verbatim. */
  lemma DollarsExactlyWhenNumeric(s: string)
    requires s != "" && JsLower(s) != "free"
    ensures FormatPrice(Str(s)).Dollars? <==> StartsNumeric(TrimLeft(s, IsJsWhitespace))
    ensures !StartsNumeric(TrimLeft(s, IsJsWhitespace)) ==> FormatPrice(Str(s)) == AsGiven(Str(s))
    ensures var t := TrimLeft(s, IsJsWhitespace);
            StartsNumeric(t) ==> FormatPrice(Str(s)) == Dollars(Literal(t[..NumericPrefixLength(t)]))
  {
    var t := TrimLeft(s, IsJsWhitespace);
    assert Truthy(Str(s)) && !IsFreeToken(Str(s));
    assert ParseFloat(Str(s)) == LeadingLiteral(t);
  }

  /** A truthy number always gets the "$" form. */
  lemma NumbersGetDollars(n: Num)
    requires Truthy(Number(n))
    ensures FormatPrice(Number(n)) == Dollars(NumberValue(n))
  {
  }

  lemma PlainDecimalLength(t: string)
    requires t == "19.99"
    ensures NumericPrefixLength(t) == 5
  {
    assert !("Infinity" <= t) by { assert t[0] != "Infinity"[0]; }
    assert DigitRun(t, 5) == 0;
    assert DigitRun(t, 4) == 1;
    assert DigitRun(t, 3) == 2;
    assert DigitRun(t, 2) == 0;
    assert DigitRun(t, 1) == 1;
    assert DigitRun(t, 0) == 2;
    assert ExponentEnd(t, 5) == 5;
  }

  /** A plain decimal string is read whole. */
  lemma DecimalStringExample(s: string)
    requires s == "19.99"
    ensures FormatPrice(Str(s)) == Dollars(Literal(s))
  {
    assert JsLower(s) != "free" by { assert JsLower(s)[0] == '1'; }
    TrimLeftOfPadded(s, 0, IsJsWhitespace);
    PlainDecimalLength(s);
    DollarsExactlyWhenNumeric(s);
    assert s[..5] == s;
  }

  /** A localised currency string passes through verbatim. */
  lemma LocalisedStringExample(s: string)
    requires s == "₩29000"
    ensures FormatPrice(Str(s)) == AsGiven(Str(s))
  {
    assert JsLower(s) != "free" by { assert JsLower(s)[0] == '₩'; }
    TrimLeftOfPadded(s, 0, IsJsWhitespace);
    assert !("Infinity" <= s) by { assert s[0] != "Infinity"[0]; }
    assert !StartsNumeric(s);
    DollarsExactlyWhenNumeric(s);
  }

  lemma DigitsThenLettersLength(t: string)
    requires t == "12abc"
    ensures NumericPrefixLength(t) == 2
  {
    assert !("Infinity" <= t) by { assert t[0] != "Infinity"[0]; }
    assert DigitRun(t, 2) == 0;
    assert DigitRun(t, 1) == 1;
    assert DigitRun(t, 0) == 2;
    assert ExponentEnd(t, 2) == 2;
  }

  /** `parseFloat` skips leading whitespace and stops at the first character that cannot
      continue the literal. */
  lemma PrefixExample(s: string)
    requires s == " 12abc"
    ensures FormatPrice(Str(s)) == Dollars(Literal("12"))
  {
    var t := s[1..];
    assert JsLower(s) != "free" by { assert JsLower(s)[0] == ' '; }
    assert !IsJsWhitespace(s[1]);
    TrimLeftOfPadded(s, 1, IsJsWhitespace);
    DigitsThenLettersLength(t);
    DollarsExactlyWhenNumeric(s);
    assert t[..2] == "12";
  }

  /** An exponent marker without digits is not part of the literal. */
  lemma BareExponentExample(t: string)
    requires t == "1e"
    ensures NumericPrefixLength(t) == 1
  {
    assert !("Infinity" <= t) by { assert t[0] != "Infinity"[0]; }
    assert DigitRun(t, 2) == 0;
    assert DigitRun(t, 1) == 0;
    assert DigitRun(t, 0) == 1;
    assert SignLength(t[2..]) == 0;
  }

  /** A signed literal may start with a point and carry a signed exponent. */
  lemma SignedExponentExample(t: string)
    requires t == "-.5E+3x"
    ensures NumericPrefixLength(t) == 6
  {
    assert SignLength(t) == 1;
    assert !("Infinity" <= t[1..]) by { assert t[1] != "Infinity"[0]; }
    assert DigitRun(t, 1) == 0;
    assert DigitRun(t, 3) == 0;
    assert DigitRun(t, 2) == 1;
    assert t[4..] == "+3x";
    assert SignLength(t[4..]) == 1;
    assert DigitRun(t, 6) == 0;
    assert DigitRun(t, 5) == 1;
    assert ExponentEnd(t, 3) == 6;
  }

  /** A point with no digit on either side is not a number. */
  lemma LonePointExample(t: string)
    requires t == ".e1"
    ensures NumericPrefixLength(t) == 0
  {
    assert !("Infinity" <= t) by { assert t[0] != "Infinity"[0]; }
    assert !StartsNumeric(t);
  }
}
