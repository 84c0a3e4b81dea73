/** When the check of a percent cell passes: `verify` of src/tybot/canvas_harness.py, last branch. */
module PercentCheck {
  import opened Basics
  import opened Decimals
  import opened Digits
  import opened DecimalText
  import opened Markdown
  import opened Percent
  import opened Harness

  // ---- Digits of a text ------------------------------------------------------------------------------------

  lemma {:induction false} DigitsConcat(a: string, b: string)
    ensures DigitsOf(a + b) == DigitsOf(a) + DigitsOf(b)
  {
    if a == "" {
      assert a + b == b;
    } else {
      DigitsConcat(a[1..], b);
      TailOfConcat(a, b);
      if IsDigit(a[0]) {
        Assoc([a[0]], DigitsOf(a[1..]), DigitsOf(b));
      }
    }
  }

  lemma {:induction false} DigitsOfDigits(d: string)
    requires AllDigits(d)
    ensures DigitsOf(d) == d
  {
    if d != "" {
      DigitsOfDigits(d[1..]);
    }
  }

  lemma {:induction false} DigitsOfCollapsed(s: string)
    ensures DigitsOf(TrimLeft(s)) == DigitsOf(s) && DigitsOf(Collapsed(s)) == DigitsOf(s)
    decreases |s|
  {
    if s != "" {
      SpaceIsNoDigit(s[0]);
      DigitsOfCollapsed(s[1..]);
      if IsSpace(s[0]) {
        LeftTrimmed(s);
        DigitsOfCollapsed(TrimLeft(s));
        SpaceInFront(Collapsed(TrimLeft(s)));
      } else {
        assert ([s[0]] + Collapsed(s[1..]))[1..] == Collapsed(s[1..]);
      }
    }
  }

  lemma SpaceInFront(t: string)
    ensures DigitsOf(" " + t) == DigitsOf(t)
  {
    assert (" " + t)[1..] == t;
  }

  lemma {:induction false} DigitsOfRun(s: string)
    requires NumberRun(s) == |s|
    ensures DigitsOf(s) == RemoveCommas(s)
  {
    if s != "" {
      DigitsOfRun(s[1..]);
    }
  }

  // ---- The number inside a percentage ------------------------------------------------------------------------

  /** The digits before the point. */
  function WholeOf(number: string): string { RemoveCommas(number[..NumberRun(number)]) }

  /** The digits after the point. */
  function FracOf(number: string): string {
    var r := NumberRun(number);
    if r == |number| then "" else number[r + 1..]
  }

  lemma RunOfPrefix(body: string)
    ensures var n, r := NumberLength(body), NumberRun(body);
      r <= n && NumberRun(body[..n]) == r
  {
    RunStops(body, NumberLength(body));
  }

  lemma {:induction false} RunStops(s: string, n: nat)
    requires NumberRun(s) <= n <= |s|
    ensures NumberRun(s[..n]) == NumberRun(s)
  {
    if s != "" && n > 0 && (IsDigit(s[0]) || s[0] == ',') {
      RunStops(s[1..], n - 1);
      assert s[..n][1..] == s[1..][..n - 1];
    }
  }

  /** A captured number is digits and commas, then perhaps a point and digits. */
  lemma NumberParts(body: string)
    requires NumberLength(body) > 0
    ensures var number := body[..NumberLength(body)];
      && AllDigits(WholeOf(number)) && AllDigits(FracOf(number))
      && DigitsOf(number) == WholeOf(number) + FracOf(number)
      && ReadUnsigned(RemoveCommas(number)) == WithExponent(WholeOf(number), FracOf(number), "")
  {
    hide RemoveCommas, NumberRun, Leading, AllDigits, DigitsOf, WithExponent, ReadUnsigned;
    var n, r := NumberLength(body), NumberRun(body);
    var number := body[..n];
    RunOfPrefix(body);
    RunIsRun(body, r);
    assert number[..r] == body[..r];
    CommasLeaveDigits(body[..r]);
    DigitsOfRun(body[..r]);
    if n > r {
      var frac := number[r + 1..];
      assert frac == body[r + 1..][..Leading(body[r + 1..])];
      assert number == body[..r] + ("." + frac);
      WithPoint(body[..r], frac);
    } else {
      assert number[..r] == number && FracOf(number) == "";
      assert AllDigits("") by { NothingIsDigits(); }
      assert WholeOf(number) + "" == WholeOf(number);
      WithoutPoint(WholeOf(number));
    }
  }

  lemma NothingIsDigits()
    ensures AllDigits("")
  {
  }

  lemma WithPoint(run: string, frac: string)
    requires AllDigits(RemoveCommas(run)) && AllDigits(frac) && frac != "" && DigitsOf(run) == RemoveCommas(run)
    ensures DigitsOf(run + ("." + frac)) == RemoveCommas(run) + frac
    ensures ReadUnsigned(RemoveCommas(run + ("." + frac))) == WithExponent(RemoveCommas(run), frac, "")
  {
    hide RemoveCommas, Leading, DigitsOf, WithExponent;
    DigitsConcat(run, "." + frac);
    DigitsConcat(".", frac);
    DigitsOfDigits(frac);
    PointHasNone();
    RemoveCommasConcat(run, "." + frac);
    RemoveCommasConcat(".", frac);
    NoComma(frac);
    NoCommas(frac);
    NoCommas(".");
    hide AllDigits;
    LeadingRun(RemoveCommas(run), "." + frac);
    LeadingRun(frac, "");
    assert frac + "" == frac;
    assert ("." + frac)[1..] == frac;
  }

  lemma PointHasNone()
    ensures DigitsOf(".") == "" && DigitsOf("%") == "" && DigitsOf("-") == "" && DigitsOf("\U{2212}") == ""
  {
  }

  lemma WithoutPoint(whole: string)
    requires AllDigits(whole)
    ensures ReadUnsigned(whole) == WithExponent(whole, "", "")
  {
    hide AllDigits, Leading, WithExponent;
    LeadingRun(whole, "");
    assert whole + "" == whole;
  }

  lemma DigitsOfPercent(text: string)
    requires PercentOf(text).Some?
    ensures DigitsOf(text) == DigitsOf(PercentOf(text).value.number)
  {
    hide DigitsOf, NumberLength, TrimLeft;
    var c := PercentOf(text).value;
    var body := text[|c.sign|..];
    var rest := body[NumberLength(body)..];
    assert text == c.sign + body && body == c.number + rest;
    DigitsConcat(c.sign, body);
    DigitsConcat(c.number, rest);
    DigitsOfCollapsed(rest);
    PointHasNone();
    SignHasNone(text);
  }

  lemma SignHasNone(text: string)
    requires PercentOf(text).Some?
    ensures DigitsOf(PercentOf(text).value.sign) == ""
  {
    hide TrimLeft;
    var sign := PercentOf(text).value.sign;
    if sign != "" {
      assert sign == [text[0]];
      assert sign[1..] == "";
    }
  }

  // ---- Zeros in front ----------------------------------------------------------------------------------------

  lemma {:induction false} ValueBelow(s: string)
    requires AllDigits(s)
    ensures ToNat(s) < Pow10(|s|)
  {
    if s != "" {
      ValueBelow(s[..|s| - 1]);
      Pow10Step(|s| - 1);
    }
  }

  /** Digits of one length stand for one number each. */
  lemma {:induction false} SameDigits(a: string, b: string)
    requires AllDigits(a) && AllDigits(b) && |a| == |b| && ToNat(a) == ToNat(b)
    ensures a == b
  {
    if a != "" {
      var n := |a| - 1;
      OneDigit(a[n], b[n], ToNat(a[..n]), ToNat(b[..n]));
      SameDigits(a[..n], b[..n]);
      assert a == a[..n] + [a[n]] && b == b[..n] + [b[n]];
    }
  }

  lemma OneDigit(c: char, d: char, x: nat, y: nat)
    requires IsDigit(c) && IsDigit(d) && 10 * x + DigitValue(c) == 10 * y + DigitValue(d)
    ensures c == d && x == y
  {
  }

  lemma {:induction false} DigitCountIs(n: nat)
    ensures |OfNat(n)| == DigitCount(n)
  {
    if n >= 10 {
      DigitCountIs(n / 10);
    }
  }

  /** A digit text is its number with some zeros in front. */
  lemma FrontZeros(s: string)
    requires AllDigits(s) && s != ""
    ensures |OfNat(ToNat(s))| <= |s|
    ensures s == Zeros(|s| - |OfNat(ToNat(s))|) + OfNat(ToNat(s))
  {
    hide ToNat, OfNat, Pow10, DigitCount, AllDigits;
    var n := ToNat(s);
    ValueBelow(s);
    CountedDigits(n, |s|);
    DigitCountIs(n);
    var z := |s| - |OfNat(n)|;
    LeadingZeros(z, OfNat(n));
    ReadBack(n);
    ZerosAndDigits(z, OfNat(n));
    SameDigits(s, Zeros(z) + OfNat(n));
  }

  lemma ZerosAndDigits(z: nat, d: string)
    requires AllDigits(d)
    ensures AllDigits(Zeros(z) + d)
  {
  }

  /** Zeros at the end. */
  lemma {:induction false} EndZeros(n: nat, m: nat)
    requires n > 0
    ensures OfNat(n * Pow10(m)) == OfNat(n) + Zeros(m)
    decreases m
  {
    if m == 0 {
      assert n * Pow10(0) == n;
      assert OfNat(n) + Zeros(0) == OfNat(n);
    } else {
      EndZeros(n, m - 1);
      Pow10Step(m - 1);
      Swap(n, Pow10(m - 1));
      TenDivides(n, Pow10(m - 1));
      var p := n * Pow10(m - 1);
      hide Pow10;
      assert OfNat(10 * p) == OfNat(p) + "0";
      assert Zeros(m) == Zeros(m - 1) + "0";
    }
  }

  /** All the digits of `f"{d:f}"`: the number, with zeros in front up to one more than the places. */
  lemma DigitsOfFixed(negative: bool, coef: nat, k: nat)
    ensures var n := OfNat(coef);
      DigitsOf(Fixed(negative, coef, k)) == (if |n| > k then n else Zeros(k + 1 - |n|) + n)
  {
    hide OfNat, DigitsOf, AllDigits;
    SplitDigits(coef, k);
    var n, whole, frac := OfNat(coef), WholeDigits(coef, k), FracDigits(coef, k);
    DigitsOfDigits(whole);
    DigitsOfDigits(frac);
    PointHasNone();
    DigitsConcat("-", Pointed(whole, frac));
    DigitsConcat(whole + ".", frac);
    DigitsConcat(whole, ".");
    assert whole + "" == whole;
    assert Pointed(whole, frac) == if frac == "" then whole else whole + "." + frac;
    JoinedDigits(n, whole, frac, k);
  }

  lemma JoinedDigits(n: string, whole: string, frac: string, k: nat)
    requires |n| > k ==> whole == n[..|n| - k] && frac == n[|n| - k..]
    requires |n| <= k ==> whole == "0" && frac == Zeros(k - |n|) + n
    ensures whole + frac == (if |n| > k then n else Zeros(k + 1 - |n|) + n)
  {
  }

  // ---- When the check passes ------------------------------------------------------------------------------------

  /** Neither empty nor with a zero too many in front. */
  predicate NoExtraZero(whole: string) { whole != "" && (|whole| == 1 || whole[0] != '0') }

  /** Two texts of zeros and then the same nonzero number agree as far as they go iff the zeros do. */
  lemma PrefixIff(z: nat, y: nat, n: string, after: string)
    requires n != "" && n[0] != '0'
    ensures var raw, shown := Zeros(z) + n, Zeros(y) + n + after;
      (raw <= shown || shown <= raw) <==> z == y
  {
    var raw, shown := Zeros(z) + n, Zeros(y) + n + after;
    if z == y {
      assert shown[..|raw|] == raw;
    } else if z < y {
      assert raw[z] == n[0] && shown[z] == '0';
    } else {
      assert raw[y] == '0' && shown[y] == n[0];
    }
  }

  lemma AllZeros(z: nat, y: nat)
    ensures Zeros(z) <= Zeros(y) || Zeros(y) <= Zeros(z)
  {
    if z <= y {
      assert Zeros(y)[..z] == Zeros(z);
    } else {
      assert Zeros(z)[..y] == Zeros(y);
    }
  }

  function FrontOf(n: string, k: nat): nat { if |n| > k then 0 else k + 1 - |n| }

  lemma ShownIs(negative: bool, coef: nat, k: nat, m: nat)
    requires coef > 0
    ensures var n := OfNat(coef);
      DigitsOf(Fixed(negative, coef * Pow10(m), k + m)) == Zeros(FrontOf(n, k)) + n + Zeros(m)
  {
    hide OfNat, Pow10, DigitsOf, Fixed;
    DigitsOfFixed(negative, coef * Pow10(m), k + m);
    EndZeros(coef, m);
    ShiftedZeros(OfNat(coef), k, m);
  }

  lemma ShownIsZero(negative: bool, k: nat, m: nat)
    ensures DigitsOf(Fixed(negative, 0 * Pow10(m), k + m)) == Zeros(k + m + 1)
  {
    hide OfNat, DigitsOf, Fixed;
    DigitsOfFixed(negative, 0 * Pow10(m), k + m);
    ZeroText(m);
    ShownZeros(k + m);
  }

  /** With `k` places and some zeros added: the digits agree iff no zero stood in front, or all are zero. */
  lemma FixedPassesIff(negative: bool, whole: string, frac: string, m: nat)
    requires AllDigits(whole) && AllDigits(frac) && whole + frac != "" && AllDigits(whole + frac)
    ensures var coef, k := ToNat(whole + frac), |frac|;
      var raw, shown := whole + frac, DigitsOf(Fixed(negative, coef * Pow10(m), k + m));
      (raw <= shown || shown <= raw) <==> NoExtraZero(whole) || coef == 0
  {
    hide OfNat, ToNat, Pow10, DigitsOf, Fixed, AllDigits, NoExtraZero, FrontOf;
    var raw, k := whole + frac, |frac|;
    var coef := ToNat(raw);
    FrontZeros(raw);
    if coef == 0 {
      ShownIsZero(negative, k, m);
      ZeroText(m);
      RawZeros(|raw|);
      AllZeros(|raw|, k + m + 1);
    } else {
      var n := OfNat(coef);
      FirstDigit(coef);
      ShownIs(negative, coef, k, m);
      PrefixIff(|raw| - |n|, FrontOf(n, k), n, Zeros(m));
      ExtraZeroIff(whole, frac, n);
    }
  }

  lemma BothDigits(a: string, b: string)
    requires AllDigits(a) && AllDigits(b)
    ensures AllDigits(a + b)
  {
  }

  lemma ZeroText(m: nat)
    ensures OfNat(0) == "0" && 0 * Pow10(m) == 0
  {
  }

  lemma ShownZeros(k: nat)
    ensures (if |"0"| > k then "0" else Zeros(k + 1 - |"0"|) + "0") == Zeros(k + 1)
  {
  }

  lemma RawZeros(z: nat)
    ensures z > 0 ==> Zeros(z - 1) + "0" == Zeros(z)
  {
  }

  lemma FirstDigit(n: nat)
    requires n > 0
    ensures OfNat(n)[0] != '0'
  {
  }

  lemma ShiftedZeros(n: string, k: nat, m: nat)
    ensures var shown := n + Zeros(m);
      (if |shown| > k + m then shown else Zeros(k + m + 1 - |shown|) + shown)
      == Zeros(FrontOf(n, k)) + n + Zeros(m)
  {
    if |n| > k {
      assert Zeros(0) + n == n;
    }
  }

  /** The zeros in front are those a display has exactly when the whole part has none to spare. */
  lemma ExtraZeroIff(whole: string, frac: string, n: string)
    requires n != "" && n[0] != '0' && |n| <= |whole + frac|
    requires whole + frac == Zeros(|whole + frac| - |n|) + n
    ensures |whole + frac| - |n| == FrontOf(n, |frac|) <==> NoExtraZero(whole)
  {
    var raw := whole + frac;
    var z := |raw| - |n|;
    if whole != "" {
      assert raw[0] == whole[0];
      assert z > 0 ==> raw[0] == '0';
      assert z == 0 ==> raw[0] == n[0];
    }
  }

  /** An exponent: the display of a small number that keeps its own places. */
  predicate Exponential(d: Decimal, decimals: nat) {
    Places(d) > decimals && |OfNat(Abs(d.coef))| - Places(d) <= -6
  }

  /** In exponent notation they never agree. */
  lemma ExponentFails(negative: bool, whole: string, frac: string)
    requires AllDigits(whole) && AllDigits(frac) && whole + frac != "" && AllDigits(whole + frac)
    requires |OfNat(ToNat(whole + frac))| - |frac| <= -6
    ensures var coef, raw := ToNat(whole + frac), whole + frac;
      var shown := DigitsOf(Str(negative, coef, |frac|));
      !(raw <= shown) && !(shown <= raw)
  {
    hide OfNat, ToNat, DigitsOf, AllDigits, Fixed;
    var raw := whole + frac;
    var coef := ToNat(raw);
    var n, e := OfNat(coef), |frac| - |OfNat(coef)| + 1;
    FrontZeros(raw);
    DigitsOfExponent(negative, coef, |frac|);
    FirstDigit(e);
    if coef > 0 {
      FirstDigit(coef);
      HeadsDiffer(raw, n, OfNat(e), |raw| - |n|);
    } else {
      ZeroText(0);
      SecondsDiffer(raw, OfNat(e));
    }
  }

  lemma HeadsDiffer(raw: string, n: string, e: string, z: nat)
    requires z > 0 && raw == Zeros(z) + n && n != "" && n[0] != '0'
    ensures !(raw <= n + e) && !(n + e <= raw)
  {
    assert raw[0] == '0' && (n + e)[0] == n[0];
  }

  lemma SecondsDiffer(raw: string, e: string)
    requires |raw| > 1 && raw == Zeros(|raw| - 1) + "0" && e != "" && e[0] != '0'
    ensures !(raw <= "0" + e) && !("0" + e <= raw)
  {
    assert raw[1] == '0' && ("0" + e)[1] == e[0];
  }

  lemma DigitsOfExponent(negative: bool, coef: nat, k: nat)
    requires |OfNat(coef)| - k <= -6
    ensures DigitsOf(Str(negative, coef, k)) == OfNat(coef) + OfNat(k - |OfNat(coef)| + 1)
  {
    hide OfNat, DigitsOf, AllDigits, Fixed;
    var n, e := OfNat(coef), OfNat(k - |OfNat(coef)| + 1);
    var mantissa := Pointed(n[..1], n[1..]);
    DigitsConcat("-", mantissa + "E-" + e);
    DigitsConcat(mantissa + "E-", e);
    DigitsConcat(mantissa, "E-");
    DigitsOfDigits(e);
    LettersHaveNone();
    MantissaDigits(n);
    assert n + "" + e == n + e;
    assert "" + (n + e) == n + e;
  }

  lemma LettersHaveNone()
    ensures DigitsOf("E-") == "" && DigitsOf("-") == ""
  {
    assert DigitsOf("E-"[1..]) == "";
  }

  lemma MantissaDigits(n: string)
    requires n != "" && AllDigits(n)
    ensures DigitsOf(Pointed(n[..1], n[1..])) == n
  {
    hide DigitsOf;
    PointHasNone();
    DigitsOfDigits(n[..1]);
    DigitsOfDigits(n[1..]);
    DigitsConcat(n[..1] + ".", n[1..]);
    DigitsConcat(n[..1], ".");
    assert n[..1] + "" == n[..1];
    assert n[..1] + n[1..] == n;
    assert n[1..] == "" ==> n[..1] == n;
  }

  predicate Agree(raw: string, shown: string) { raw <= shown || shown <= raw }

  /** The digits shown and the digits written agree iff the display has no exponent and the number no extra zero. */
  lemma DisplayAgreesIff(negative: bool, whole: string, frac: string, decimals: nat)
    requires AllDigits(whole) && AllDigits(frac) && whole + frac != "" && AllDigits(whole + frac)
    ensures var d := Decimal(ToNat(whole + frac), 0 - |frac|);
      Agree(whole + frac, DigitsOf(Display(negative, d.coef, |frac|, decimals).0))
      <==> !Exponential(d, decimals) && (NoExtraZero(whole) || d.coef == 0)
  {
    hide OfNat, ToNat, Pow10, DigitsOf, Fixed, AllDigits, NoExtraZero;
    var coef, k := ToNat(whole + frac), |frac|;
    PointHasNone();
    if k > decimals {
      DigitsConcat(Str(negative, coef, k), "%");
      NothingAfter(DigitsOf(Str(negative, coef, k)));
      if |OfNat(coef)| - k > -6 {
        FixedPassesIff(negative, whole, frac, 0);
        TimesOne(coef);
      } else {
        ExponentFails(negative, whole, frac);
      }
    } else {
      var m := decimals - k;
      var text := Fixed(negative, coef * Pow10(m), decimals);
      DigitsConcat(text, "%");
      NothingAfter(DigitsOf(text));
      FixedPassesIff(negative, whole, frac, m);
    }
  }

  lemma NothingAfter(s: string)
    ensures s + "" == s
  {
  }

  lemma TimesOne(c: nat)
    ensures c * Pow10(0) == c
  {
  }

  /** What a captured percentage is made of. */
  lemma CaptureParts(text: string)
    requires WrittenPercent(text).Some?
    ensures var c := PercentOf(text).value;
      && PercentOf(text).Some?
      && var whole, frac := WholeOf(c.number), FracOf(c.number);
      && AllDigits(whole) && AllDigits(frac) && AllDigits(whole + frac) && whole + frac != ""
      && DigitsOf(text) == whole + frac
      && Magnitude(c) == Some(Decimal(ToNat(whole + frac), 0 - |frac|))
  {
    hide WholeOf, FracOf, DigitsOf, AllDigits, ToNat, RemoveCommas, ReadUnsigned;
    var c := PercentOf(text).value;
    NumberParts(text[|c.sign|..]);
    BothDigits(WholeOf(c.number), FracOf(c.number));
    DigitsOfPercent(text);
  }

  /**
   * A readable percent cell passes its check exactly when it is not shown with an exponent and its
   * number had no zero too many in front - or is zero throughout.
   */
  lemma PercentPassesIff(fmt: Formats, hint: string, raw: string, decimals: nat)
    requires WrittenPercent(Markdown.Joined(raw)).Some?
    ensures var c := PercentOf(Markdown.Joined(raw)).value;
      var d := Magnitude(c).value;
      Verify(CellFor(fmt, AsPercent(decimals), hint, raw)).None?
      <==> !Exponential(d, decimals) && (NoExtraZero(WholeOf(c.number)) || d.coef == 0)
  {
    hide WholeOf, FracOf, DigitsOf, AllDigits, ToNat, OfNat, Magnitude, PercentOf, NoExtraZero, Exponential, Collapsed, Display;
    var text := Markdown.Joined(raw);
    CaptureParts(text);
    DigitsOfCollapsed(TrimLeft(raw));
    DigitsOfCollapsed(raw);
    var c := PercentOf(text).value;
    var whole, frac := WholeOf(c.number), FracOf(c.number);
    assert text != "" by { EmptyIsNoPercent(); }
    DisplayAgreesIff(c.sign != "", whole, frac, decimals);
    DisplayIsShown(c.sign != "", ToNat(whole + frac), |frac|, decimals);
  }

  lemma DisplayIsShown(negative: bool, coef: nat, k: nat, decimals: nat)
    ensures var shown := Display(negative, coef, k, decimals);
      shown.0 != ABSENT && shown.1 != Unresolved
  {
    hide Str, Fixed, Pow10;
    if k > decimals {
      DropPercent(Str(negative, coef, k));
    } else {
      DropPercent(Fixed(negative, coef * Pow10(decimals - k), decimals));
    }
  }
}
