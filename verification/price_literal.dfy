// The grammar of the decimal literal that `parseFloat` reads (the StrDecimalLiteral
// production of ECMA-262), stated on its own terms, and the proof that the scanner in
// PriceFormat measures exactly the longest such literal at the start of a string.

module PriceLiteral {
  import opened Chars
  import opened JsValues
  import opened PriceFormat

  predicate IsSign(c: char) { c == '+' || c == '-' }

  predicate IsExponentMarker(c: char) { c == 'e' || c == 'E' }

  /** `DecimalDigits . DecimalDigits?`, `. DecimalDigits` or `DecimalDigits`: digits with
      at most one point among them and at least one digit. */
  ghost predicate IsMantissa(m: string)
  {
    && (forall i :: 0 <= i < |m| ==> IsDigit(m[i]) || m[i] == '.')
    && (forall i, j :: 0 <= i < j < |m| && m[i] == '.' ==> m[j] != '.')
    && (exists i :: 0 <= i < |m| && IsDigit(m[i]))
  }

  /** `SignedInteger`: an optional sign, then at least one digit. */
  ghost predicate IsSignedInteger(x: string)
  {
    var y := if x != [] && IsSign(x[0]) then x[1..] else x;
    y != [] && AllDigits(y)
  }

  /** `StrUnsignedDecimalLiteral`: `Infinity`, or a mantissa with an optional exponent. */
  ghost predicate IsUnsignedLiteral(u: string)
  {
    || u == "Infinity"
    || IsMantissa(u)
    || exists k :: 0 <= k < |u| && SplitsAtExponent(u, k)
  }

  /** `u` is a mantissa, then an exponent marker at `k`, then a signed integer. */
  ghost predicate SplitsAtExponent(u: string, k: nat)
    requires k < |u|
  {
    IsMantissa(u[..k]) && IsExponentMarker(u[k]) && IsSignedInteger(u[k + 1..])
  }

  /** `StrDecimalLiteral`: an optional sign, then an unsigned literal. */
  ghost predicate IsStrDecimalLiteral(s: string)
  {
    IsUnsignedLiteral(if s != [] && IsSign(s[0]) then s[1..] else s)
  }

  // The same grammar read in place, on the positions of a longer string.

  ghost predicate MantissaAt(t: string, lo: nat, hi: nat)
    requires lo <= hi <= |t|
  {
    && (forall i :: lo <= i < hi ==> IsDigit(t[i]) || t[i] == '.')
    && (forall i, j :: lo <= i < j < hi && t[i] == '.' ==> t[j] != '.')
    && (exists i :: lo <= i < hi && IsDigit(t[i]))
  }

  ghost predicate SignedAt(t: string, lo: nat, hi: nat)
    requires lo <= hi <= |t|
  {
    var sl := if lo < hi && IsSign(t[lo]) then 1 else 0;
    lo + sl < hi && forall i :: lo + sl <= i < hi ==> IsDigit(t[i])
  }

  ghost predicate LiteralAt(t: string, m: nat)
    requires m <= |t|
  {
    var s := SignLength(t);
    && 0 < m
    && s <= m
    && (|| t[s..m] == "Infinity"
        || MantissaAt(t, s, m)
        || exists k :: s <= k < m && ExponentAt(t, s, k, m))
  }

  ghost predicate ExponentAt(t: string, s: nat, k: nat, m: nat)
    requires s <= k < m <= |t|
  {
    MantissaAt(t, s, k) && IsExponentMarker(t[k]) && SignedAt(t, k + 1, m)
  }

  lemma MantissaShift(t: string, lo: nat, hi: nat)
    requires lo <= hi <= |t|
    ensures IsMantissa(t[lo..hi]) <==> MantissaAt(t, lo, hi)
  {
    var m := t[lo..hi];
    assert forall i :: 0 <= i < |m| ==> m[i] == t[lo + i];
    if IsMantissa(m) {
      var i :| 0 <= i < |m| && IsDigit(m[i]);
      assert IsDigit(t[lo + i]);
      forall i | lo <= i < hi
        ensures IsDigit(t[i]) || t[i] == '.'
      {
        assert t[i] == m[i - lo];
      }
      forall i, j | lo <= i < j < hi && t[i] == '.'
        ensures t[j] != '.'
      {
        assert t[i] == m[i - lo] && t[j] == m[j - lo];
      }
    }
    if MantissaAt(t, lo, hi) {
      var i :| lo <= i < hi && IsDigit(t[i]);
      assert IsDigit(m[i - lo]);
    }
  }

  lemma SignedShift(t: string, lo: nat, hi: nat)
    requires lo <= hi <= |t|
    ensures IsSignedInteger(t[lo..hi]) <==> SignedAt(t, lo, hi)
  {
    var x := t[lo..hi];
    var sl := if lo < hi && IsSign(t[lo]) then 1 else 0;
    var y := if x != [] && IsSign(x[0]) then x[1..] else x;
    assert y == t[lo + sl..hi];
    DigitsShift(t, lo + sl, hi);
  }

  lemma DigitsShift(t: string, lo: nat, hi: nat)
    requires lo <= hi <= |t|
    ensures AllDigits(t[lo..hi]) <==> forall i :: lo <= i < hi ==> IsDigit(t[i])
  {
    var y := t[lo..hi];
    if forall i :: lo <= i < hi ==> IsDigit(t[i]) {
      forall i | 0 <= i < |y|
        ensures IsDigit(y[i])
      {
        assert y[i] == t[lo + i];
      }
    }
    if AllDigits(y) {
      forall i | lo <= i < hi
        ensures IsDigit(t[i])
      {
        assert t[i] == y[i - lo];
      }
    }
  }

  /** An exponent split at `i` of `t[s..m]` is the split at `k == s + i` in place. */
  lemma SplitShift(t: string, s: nat, i: nat, k: nat, m: nat)
    requires k == s + i && k < m <= |t|
    ensures SplitsAtExponent(t[s..m], i) <==> ExponentAt(t, s, k, m)
  {
    SplitPieces(t, s, i, k, m);
    MantissaShift(t, s, k);
    SignedShift(t, k + 1, m);
  }

  lemma SplitPieces(t: string, s: nat, i: nat, k: nat, m: nat)
    requires k == s + i && k < m <= |t|
    ensures t[s..m][..i] == t[s..k] && t[s..m][i] == t[k] && t[s..m][i + 1..] == t[k + 1..m]
  {
  }

  /** The unsigned part of a literal read in place after the sign `s`. */
  lemma UnsignedShift(t: string, s: nat, m: nat)
    requires s <= m <= |t|
    ensures IsUnsignedLiteral(t[s..m]) <==>
              || t[s..m] == "Infinity"
              || MantissaAt(t, s, m)
              || exists k :: s <= k < m && ExponentAt(t, s, k, m)
  {
    var u := t[s..m];
    MantissaShift(t, s, m);
    if exists i :: 0 <= i < |u| && SplitsAtExponent(u, i) {
      var i :| 0 <= i < |u| && SplitsAtExponent(u, i);
      var k := s + i;
      SplitShift(t, s, i, k, m);
      assert ExponentAt(t, s, k, m);
    }
    if exists k :: s <= k < m && ExponentAt(t, s, k, m) {
      var k :| s <= k < m && ExponentAt(t, s, k, m);
      var i := k - s;
      SplitShift(t, s, i, k, m);
      assert SplitsAtExponent(u, i);
    }
  }

  /** A prefix of `t` is a literal exactly when the grammar holds in place. */
  lemma LiteralShift(t: string, m: nat)
    requires m <= |t|
    ensures IsStrDecimalLiteral(t[..m]) <==> LiteralAt(t, m)
  {
    var p := t[..m];
    if m == 0 {
      assert p == [];
      assert !IsMantissa(p);
    } else {
      var s := SignLength(t);
      assert p[0] == t[0];
      assert (if p != [] && IsSign(p[0]) then p[1..] else p) == t[s..m];
      UnsignedShift(t, s, m);
    }
  }

  /** A run of digits is covered by `DigitRun`. */
  lemma DigitRunCovers(t: string, i: nat, h: nat)
    requires i <= h <= |t|
    requires forall k :: i <= k < h ==> IsDigit(t[k])
    ensures DigitRun(t, i) >= h - i
  {
    var r := DigitRun(t, i);
  }

  // Soundness: what the scanner measures is a literal.

  /** The scanner's mantissa, when it is not empty, is a mantissa of the grammar. */
  lemma MantissaEndSound(t: string, s: nat)
    requires s <= |t| && MantissaEnd(t, s) > s
    ensures MantissaAt(t, s, MantissaEnd(t, s))
  {
    var d1 := DigitRun(t, s);
    var j := s + d1;
    if j < |t| && t[j] == '.' {
      assert IsDigit(t[if d1 > 0 then s else j + 1]);
    } else {
      assert IsDigit(t[s]);
    }
  }

  /** Whatever exponent `ExponentEnd` accepts after a mantissa completes a literal. */
  lemma ExponentSound(t: string, s: nat, k: nat)
    requires s == SignLength(t) && s <= k <= |t|
    requires MantissaAt(t, s, k)
    ensures LiteralAt(t, ExponentEnd(t, k))
  {
    var n := ExponentEnd(t, k);
    if n != k {
      var j := k + 1 + SignLength(t[k + 1..]);
      var d := DigitRun(t, j);
      assert n == j + d && d > 0;
      assert IsExponentMarker(t[k]);
      assert SignedAt(t, k + 1, n);
      assert ExponentAt(t, s, k, n);
    } else {
      assert MantissaAt(t, s, n);
    }
  }

  lemma InfinityLiteral(t: string, s: nat)
    requires s == SignLength(t) && "Infinity" <= t[s..]
    ensures s + 8 <= |t| && LiteralAt(t, s + 8)
  {
    assert t[s..s + 8] == "Infinity";
  }

  /** Whatever the scanner measures is a literal. */
  lemma PrefixIsLiteral(t: string)
    ensures NumericPrefixLength(t) > 0 ==> LiteralAt(t, NumericPrefixLength(t))
  {
    var s := SignLength(t);
    if "Infinity" <= t[s..] {
      InfinityLiteral(t, s);
    } else {
      var e := MantissaEnd(t, s);
      if e > s {
        MantissaEndSound(t, s);
        ExponentSound(t, s, e);
      }
    }
  }

  // Maximality: no literal at the start of a string is longer than what the scanner
  // measures.

  /** A mantissa has only digits after its point. */
  lemma DigitsAfterPoint(t: string, s: nat, j: nat, k: nat)
    requires s <= j < k <= |t|
    requires MantissaAt(t, s, k) && t[j] == '.'
    ensures forall i :: j < i < k ==> IsDigit(t[i])
  {
    forall i | j < i < k
      ensures IsDigit(t[i])
    {
      assert t[i] != '.';
    }
  }

  /** Any mantissa at `s` ends no later than the scanner's mantissa, which is then not
      empty and made of digits and points. */
  lemma MantissaEndCovers(t: string, s: nat, k: nat)
    requires s <= k <= |t|
    requires MantissaAt(t, s, k)
    ensures s < MantissaEnd(t, s) && k <= MantissaEnd(t, s)
    ensures forall i :: s <= i < MantissaEnd(t, s) ==> IsDigit(t[i]) || t[i] == '.'
  {
    var d1 := DigitRun(t, s);
    var j := s + d1;
    var w :| s <= w < k && IsDigit(t[w]);
    if j < |t| && t[j] == '.' {
      if k > j + 1 {
        DigitsAfterPoint(t, s, j, k);
        DigitRunCovers(t, j + 1, k);
        if w > j {
          DigitRunCovers(t, j + 1, w + 1);
        }
      }
    } else {
      assert k <= j;
    }
  }

  /** A mantissa cannot start at a letter. */
  lemma NoMantissaAtLetter(t: string, s: nat, k: nat)
    requires s <= k <= |t| && s < |t|
    requires t[s] == 'I'
    ensures !MantissaAt(t, s, k)
  {
    if k > s {
      assert !(IsDigit(t[s]) || t[s] == '.');
    }
  }

  /** After a sign and "Infinity", the only literal is that word. */
  lemma InfinityAlone(t: string, s: nat, m: nat)
    requires s == SignLength(t) && "Infinity" <= t[s..]
    requires m <= |t| && LiteralAt(t, m)
    ensures m == s + 8
  {
    assert t[s] == 'I';
    NoMantissaAtLetter(t, s, m);
    forall k | s <= k < m
      ensures !ExponentAt(t, s, k, m)
    {
      NoMantissaAtLetter(t, s, k);
    }
    assert t[s..m] == "Infinity";
  }

  /** An exponent after the scanner's mantissa `k` is read whole by `ExponentEnd`. */
  lemma ExponentWithin(t: string, s: nat, k: nat, m: nat)
    requires s <= k < m <= |t|
    requires ExponentAt(t, s, k, m)
    ensures m <= ExponentEnd(t, k)
  {
    var j := k + 1 + SignLength(t[k + 1..]);
    DigitRunCovers(t, j, m);
  }

  /** No literal at the start of `t` is longer than what the scanner measures. */
  lemma LiteralWithinPrefix(t: string, m: nat)
    requires m <= |t|
    requires LiteralAt(t, m)
    ensures m <= NumericPrefixLength(t)
  {
    var s := SignLength(t);
    if "Infinity" <= t[s..] {
      InfinityAlone(t, s, m);
    } else {
      assert t[s..m] != "Infinity";
      if MantissaAt(t, s, m) {
        MantissaEndCovers(t, s, m);
      } else {
        var k :| s <= k < m && ExponentAt(t, s, k, m);
        MantissaEndCovers(t, s, k);
        assert MantissaEnd(t, s) == k;
        ExponentWithin(t, s, k, m);
      }
    }
  }

  /** `NumericPrefixLength` measures the longest decimal literal at the start of a string:
      when it is positive, that prefix is a literal and no longer prefix is one; when it is
      zero, no non-empty prefix is one. */
  lemma NumericPrefixIsLongestLiteral(t: string)
    ensures NumericPrefixLength(t) > 0 ==> IsStrDecimalLiteral(t[..NumericPrefixLength(t)])
    ensures forall m :: NumericPrefixLength(t) < m <= |t| ==> !IsStrDecimalLiteral(t[..m])
  {
    var n := NumericPrefixLength(t);
    if n > 0 {
      PrefixIsLiteral(t);
      LiteralShift(t, n);
    }
    forall m | n < m <= |t|
      ensures !IsStrDecimalLiteral(t[..m])
    {
      LiteralShift(t, m);
      if LiteralAt(t, m) {
        LiteralWithinPrefix(t, m);
      }
    }
  }

  /** A string price that is neither falsy nor free is shown in the "$" form with the
      longest decimal literal that starts it after its leading whitespace; when no
      non-empty prefix there is a literal, it is returned verbatim. */
  lemma DollarsReadLongestLiteral(s: string)
    requires s != "" && JsLower(s) != "free"
    ensures var t := TrimLeft(s, IsJsWhitespace);
            FormatPrice(Str(s)).Dollars? ==>
              var a := FormatPrice(Str(s)).amount;
              && a.Literal? && a.text <= t
              && IsStrDecimalLiteral(a.text)
              && forall m :: |a.text| < m <= |t| ==> !IsStrDecimalLiteral(t[..m])
    ensures var t := TrimLeft(s, IsJsWhitespace);
            !FormatPrice(Str(s)).Dollars? ==>
              && FormatPrice(Str(s)) == AsGiven(Str(s))
              && forall m :: 0 < m <= |t| ==> !IsStrDecimalLiteral(t[..m])
  {
    var t := TrimLeft(s, IsJsWhitespace);
    DollarsExactlyWhenNumeric(s);
    NumericPrefixIsLongestLiteral(t);
  }
}
