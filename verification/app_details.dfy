/** `fetch_appdetails`, shared verbatim by the two maintenance scripts
    (manual_insert_render.py and retry_failed_games_render.py): what it makes of the Steam
    store's `appdetails` answer for one app id — nothing, a thumbnail and a price text,
    or an exception that escapes to its caller. */
module AppDetails {
  import opened Options
  import opened Chars

  /** A decoded JSON value as Python holds it. JSON numbers with a fraction or an
      exponent (Python floats) are not modelled. */
  datatype PyValue =
    | PyNone
    | PyBool(b: bool)
    | PyInt(i: int)
    | PyStr(s: string)
    | PyList(items: seq<PyValue>)
    | PyDict(entries: map<string, PyValue>)

  /** Python truthiness. */
  predicate PyTruthy(v: PyValue)
  {
    match v
    case PyNone => false
    case PyBool(b) => b
    case PyInt(i) => i != 0
    case PyStr(s) => s != ""
    case PyList(items) => items != []
    case PyDict(entries) => entries != map[]
  }

  /** `d.get(key, default)`. */
  function Get(d: map<string, PyValue>, key: string, default: PyValue): PyValue
  {
    if key in d then d[key] else default
  }

  /** How the guarded part of the request ended: `requests.get`, `raise_for_status` or
      `resp.json()` raised (no connection, a timeout, an HTTP error status, a body that
      is not JSON), or the body decoded to a value. */
  datatype Response = RequestFailed | Json(body: PyValue)

  /** The exceptions that can escape `fetch_appdetails`. */
  datatype PyError =
    | AttributeError  // `data.get` on a decoded body that is not an object
    | TypeError       // `final / 100` on a `final` that is not a number

  datatype Outcome<T> = Returned(value: T) | Raised(error: PyError)

  /** The price text, `price_str`: `None`, a string, or `str(final)` of a JSON array or
      object, whose rendering is not modelled. */
  datatype Price = NoPrice | PriceText(text: string) | ContainerText(container: PyValue)

  /** The pair `(profile_img, price_str)`. */
  datatype Details = Details(profileImg: PyValue, price: Price)

  /** `str(i)` of a Python int. */
  function IntToString(i: int): string
  {
    if i < 0 then "-" + NatToString(-i) else NatToString(i)
  }

  /** `str(i)` reads back as `i`: a minus sign exactly for a negative number, then the
      digits of the magnitude with no leading zero. */
  lemma IntToStringReadBack(i: int)
    ensures var t := IntToString(i);
            t != [] && (t[0] == '-' <==> i < 0) &&
            var u := if i < 0 then t[1..] else t;
            AllDigits(u) && (|u| > 1 ==> u[0] != '0') && DigitsValue(u) == if i < 0 then -i else i
  {
    var m := if i < 0 then -i else i;
    NatToStringRoundTrip(m);
    var t := IntToString(i);
    if i < 0 {
      assert t[1..] == NatToString(m);
    } else {
      assert t == NatToString(m);
    }
  }

  /** The shape of a `:.2f` rendering: an optional minus sign, the whole units in decimal
      without leading zeros, a point and exactly two digits. */
  predicate TwoDecimalText(t: string)
  {
    var u := if t != [] && t[0] == '-' then t[1..] else t;
    |u| >= 4 && u[|u| - 3] == '.' && AllDigits(u[..|u| - 3]) && AllDigits(u[|u| - 2..]) &&
    (|u| > 4 ==> u[0] != '0')
  }

  /** `f"{c / 100:.2f}"` for an integer number of cents: the sign, the whole units, a
      point and exactly two digits. */
  function FormatCents(c: int): (t: string)
    ensures TwoDecimalText(t)
    ensures c < 0 <==> t[0] == '-'
  {
    var u := UnsignedCents(if c < 0 then -c else c);
    UnsignedCentsValue(if c < 0 then -c else c);
    var t := (if c < 0 then "-" else "") + u;
    assert (if t != [] && t[0] == '-' then t[1..] else t) == u;
    t
  }

  /** Reads back an amount written as FormatCents writes it: an optional minus sign,
      digits, a point and two digits. */
  function ParseCents(t: string): Option<int>
  {
    var neg := t != [] && t[0] == '-';
    var u := if neg then t[1..] else t;
    if |u| >= 4 && u[|u| - 3] == '.' && AllDigits(u[..|u| - 3]) && AllDigits(u[|u| - 2..]) then
      var v := DigitsValue(u[..|u| - 3]) * 100 + DigitsValue(u[|u| - 2..]);
      Some(if neg then -v else v)
    else
      None
  }

  lemma TwoDigitsValue(x: nat, y: nat)
    requires x < 10 && y < 10
    ensures DigitsValue([DigitChar(x), DigitChar(y)]) == 10 * x + y
  {
    var s := [DigitChar(x), DigitChar(y)];
    assert s[..1] == [DigitChar(x)];
    assert [DigitChar(x)][..0] == [];
    assert DigitsValue([DigitChar(x)]) == x;
  }

  /** The two-decimal text of a dollar amount reads back as the same number of cents, so
      different amounts never share a text. */
  lemma FormatCentsRoundTrip(c: int)
    ensures ParseCents(FormatCents(c)) == Some(c)
  {
    var a := if c < 0 then -c else c;
    var whole, frac := UnsignedCentsParts(a);
    var u := UnsignedCents(a);
    PointSplits(whole, frac);
    assert FormatCents(c) == (if c < 0 then "-" else "") + u;
    SignedReadBack(c < 0, u);
  }

  /** Digits, a point and two digits: the parts sit where ParseCents looks for them. */
  lemma PointSplits(whole: string, frac: string)
    requires whole != [] && |frac| == 2
    ensures var u := whole + "." + frac;
            |u| >= 4 && u[0] == whole[0] && u[|u| - 3] == '.' &&
            u[..|u| - 3] == whole && u[|u| - 2..] == frac
  {
  }

  /** An unsigned two-decimal text, with or without a minus sign in front, reads back as
      its amount with that sign. */
  lemma SignedReadBack(neg: bool, u: string)
    requires |u| >= 4 && u[0] != '-' && u[|u| - 3] == '.'
    requires AllDigits(u[..|u| - 3]) && AllDigits(u[|u| - 2..])
    ensures var v := DigitsValue(u[..|u| - 3]) * 100 + DigitsValue(u[|u| - 2..]);
            ParseCents((if neg then "-" else "") + u) == Some(if neg then -v else v)
  {
    var t := (if neg then "-" else "") + u;
    if neg {
      assert t[0] == '-' && t[1..] == u;
    } else {
      assert t == u;
    }
  }

  /** FormatCents of a non-negative amount. */
  function UnsignedCents(a: nat): string
  {
    var r := a % 100;
    NatToString(a / 100) + "." + [DigitChar(r / 10), DigitChar(r % 10)]
  }

  lemma UnsignedCentsValue(a: nat)
    ensures |UnsignedCents(a)| >= 4 && UnsignedCents(a)[0] != '-'
    ensures TwoDecimalText(UnsignedCents(a))
  {
    var whole, frac := UnsignedCentsParts(a);
    PointSplits(whole, frac);
  }

  /** The whole units and the two decimals of an unsigned rendering, and their values. */
  lemma UnsignedCentsParts(a: nat) returns (whole: string, frac: string)
    ensures UnsignedCents(a) == whole + "." + frac
    ensures whole != [] && AllDigits(whole) && (|whole| > 1 ==> whole[0] != '0')
    ensures |frac| == 2 && AllDigits(frac)
    ensures DigitsValue(whole) * 100 + DigitsValue(frac) == a
  {
    var r := a % 100;
    whole := NatToString(a / 100);
    frac := [DigitChar(r / 10), DigitChar(r % 10)];
    NatToStringRoundTrip(a / 100);
    TwoDigitsValue(r / 10, r % 10);
  }

  lemma FormatCentsInjective(c: int, d: int)
    requires FormatCents(c) == FormatCents(d)
    ensures c == d
  {
    FormatCentsRoundTrip(c);
    FormatCentsRoundTrip(d);
  }

  /** The worked example of the source's comment: 1099 cents are "10.99". */
  lemma TenNinetyNine(c: int)
    requires c == 1099
    ensures FormatCents(c) == "10.99"
  {
    assert NatToString(10) == "10" by {
      assert NatToString(1) == "1";
    }
  }

  /** The number of cents `final / 100` divides: an int, or a bool (`True / 100` is
      0.01); anything else makes the division raise TypeError. */
  function CentsOf(final: PyValue): Option<int>
  {
    match final
    case PyInt(i) => Some(i)
    case PyBool(b) => Some(if b then 1 else 0)
    case _ => None
  }

  /** `str(final)` for a `final` that is not None. */
  function PriceString(final: PyValue): Price
  {
    match final
    case PyNone => PriceText("None")
    case PyBool(b) => PriceText(if b then "True" else "False")
    case PyInt(i) => PriceText(IntToString(i))
    case PyStr(s) => PriceText(s)
    case PyList(_) => ContainerText(final)
    case PyDict(_) => ContainerText(final)
  }

  /** The price block of `fetch_appdetails`, on the `data` object of an accepted answer. */
  function DerivePrice(game: map<string, PyValue>): (r: Outcome<Price>)
    ensures r.Raised? ==> r.error == TypeError
    ensures r.Raised? <==>
              !PyTruthy(Get(game, "is_free", PyBool(false))) &&
              Get(game, "price_overview", PyNone).PyDict? &&
              Get(Get(game, "price_overview", PyNone).entries, "currency", PyNone) == PyStr("USD") &&
              CentsOf(Get(Get(game, "price_overview", PyNone).entries, "final", PyNone)).None? &&
              !Get(Get(game, "price_overview", PyNone).entries, "final", PyNone).PyNone?
    ensures r == Returned(NoPrice) <==>
              !PyTruthy(Get(game, "is_free", PyBool(false))) &&
              (!Get(game, "price_overview", PyNone).PyDict? ||
               Get(Get(game, "price_overview", PyNone).entries, "final", PyNone).PyNone?)
  {
    var overview := Get(game, "price_overview", PyNone);
    if PyTruthy(Get(game, "is_free", PyBool(false))) then Returned(PriceText("free"))
    else if !overview.PyDict? then Returned(NoPrice)
    else
      var final := Get(overview.entries, "final", PyNone);
      if final.PyNone? then Returned(NoPrice)
      else if Get(overview.entries, "currency", PyNone) == PyStr("USD") then
        match CentsOf(final)
        case Some(c) => Returned(PriceText(FormatCents(c)))
        case None => Raised(TypeError)
      else Returned(PriceString(final))
  }

  /** The `data` object of an answer that passes the three checks: the entry under the
      app id is an object, its `success` is truthy and its `data` is an object. */
  function GameObject(appid: string, data: map<string, PyValue>): (r: Option<map<string, PyValue>>)
    ensures r.Some? <==>
              appid in data && data[appid].PyDict? &&
              PyTruthy(Get(data[appid].entries, "success", PyBool(false))) &&
              "data" in data[appid].entries && data[appid].entries["data"].PyDict?
    ensures r.Some? ==> r.value == data[appid].entries["data"].entries
  {
    var entry := Get(data, appid, PyNone);
    if !entry.PyDict? then None
    else if !PyTruthy(Get(entry.entries, "success", PyBool(false))) then None
    else
      var game := Get(entry.entries, "data", PyNone);
      if game.PyDict? then Some(game.entries) else None
  }

  /** `fetch_appdetails(appid)` once the request has been made. */
  function FetchAppDetails(appid: string, response: Response): (r: Outcome<Option<Details>>)
    ensures r.Raised? ==>
              response.Json? &&
              (r.error == AttributeError <==> !response.body.PyDict?)
    ensures r == Returned(None) <==>
              response.RequestFailed? ||
              (response.body.PyDict? && GameObject(appid, response.body.entries).None?)
    ensures r.Returned? && r.value.Some? ==>
              response.Json? && response.body.PyDict? &&
              GameObject(appid, response.body.entries).Some? &&
              var game := GameObject(appid, response.body.entries).value;
              DerivePrice(game) == Returned(r.value.value.price) &&
              (r.value.value.profileImg == if "header_image" in game then game["header_image"] else PyNone)
    ensures response.Json? && response.body.PyDict? && GameObject(appid, response.body.entries).Some? ==>
              (r == Raised(TypeError) <==> DerivePrice(GameObject(appid, response.body.entries).value).Raised?)
  {
    if response.RequestFailed? then Returned(None)
    else if !response.body.PyDict? then Raised(AttributeError)
    else match GameObject(appid, response.body.entries)
      case None => Returned(None)
      case Some(game) =>
        match DerivePrice(game)
        case Raised(e) => Raised(e)
        case Returned(price) => Returned(Some(Details(Get(game, "header_image", PyNone), price)))
  }

  /** A truthy `is_free` makes the price "free", whatever the price block holds. */
  lemma FreeWins(game: map<string, PyValue>)
    requires "is_free" in game && PyTruthy(game["is_free"])
    ensures DerivePrice(game) == Returned(PriceText("free"))
  {
  }

  /** A dollar price in whole cents becomes its two-decimal text, which reads back as
      the cents. */
  lemma DollarPriceReadsBack(game: map<string, PyValue>, cents: int)
    requires !("is_free" in game && PyTruthy(game["is_free"]))
    requires "price_overview" in game && game["price_overview"].PyDict?
    requires var info := game["price_overview"].entries;
             "currency" in info && info["currency"] == PyStr("USD") &&
             "final" in info && info["final"] == PyInt(cents)
    ensures DerivePrice(game).Returned?
    ensures var p := DerivePrice(game).value;
            p == PriceText(FormatCents(cents)) && TwoDecimalText(p.text) &&
            ParseCents(p.text) == Some(cents)
  {
    FormatCentsRoundTrip(cents);
  }

  /** A price in another currency is `str(final)`: for an integer, a minus sign exactly
      when it is negative, then the decimal digits of its magnitude. */
  lemma OtherCurrencyVerbatim(game: map<string, PyValue>, currency: PyValue, final: int)
    requires !("is_free" in game && PyTruthy(game["is_free"]))
    requires "price_overview" in game && game["price_overview"].PyDict?
    requires var info := game["price_overview"].entries;
             Get(info, "currency", PyNone) == currency && currency != PyStr("USD") &&
             "final" in info && info["final"] == PyInt(final)
    ensures DerivePrice(game).Returned?
    ensures var p := DerivePrice(game).value;
            p == PriceText(IntToString(final)) && p.text != [] &&
            (p.text[0] == '-' <==> final < 0) &&
            var u := if final < 0 then p.text[1..] else p.text;
            AllDigits(u) && (|u| > 1 ==> u[0] != '0') && DigitsValue(u) == if final < 0 then -final else final
  {
    IntToStringReadBack(final);
  }

  /** Without a price object, or with one whose `final` is missing or None, there is no
      price text; the entry is still accepted. */
  lemma NoPriceWithoutFinal(game: map<string, PyValue>)
    requires !("is_free" in game && PyTruthy(game["is_free"]))
    requires "price_overview" in game ==>
               !game["price_overview"].PyDict? ||
               Get(game["price_overview"].entries, "final", PyNone) == PyNone
    ensures DerivePrice(game) == Returned(NoPrice)
  {
  }

  /** A dollar `final` that is not a number raises TypeError out of the function. */
  lemma NonNumericDollarsRaise(game: map<string, PyValue>)
    requires !("is_free" in game && PyTruthy(game["is_free"]))
    requires "price_overview" in game && game["price_overview"].PyDict?
    requires var info := game["price_overview"].entries;
             Get(info, "currency", PyNone) == PyStr("USD") &&
             "final" in info && (info["final"].PyStr? || info["final"].PyList? || info["final"].PyDict?)
    ensures DerivePrice(game) == Raised(TypeError)
  {
  }
}
