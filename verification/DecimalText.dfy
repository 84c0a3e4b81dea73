/** How Python writes a decimal as text and reads it back. */
module DecimalText {
  import opened Basics
  import opened Decimals
  import opened Digits

  // ---- Reading ---------------------------------------------------------------------------------

  /** `Decimal(text)`: a sign, digits with an optional point, an optional exponent. */
  function Read(s: string): Option<Decimal> {
    if s != "" && s[0] == '-' then
      match ReadUnsigned(s[1..])
      case None => None
      case Some(d) => Some(Decimal(-d.coef, d.exp))
    else if s != "" && s[0] == '+' then ReadUnsigned(s[1..])
    else ReadUnsigned(s)
  }

  function ReadUnsigned(s: string): Option<Decimal> {
    var n := Leading(s);
    var rest := s[n..];
    if rest == "" || rest[0] != '.' then WithExponent(s[..n], "", rest)
    else
      var after := rest[1..];
      var m := Leading(after);
      WithExponent(s[..n], after[..m], after[m..])
  }

  function WithExponent(whole: string, frac: string, tail: string): Option<Decimal>
    requires AllDigits(whole) && AllDigits(frac)
  {
    if whole + frac == "" then None
    else if tail == "" then Some(Decimal(ToNat(whole + frac), -|frac|))
    else if tail[0] != 'E' && tail[0] != 'e' then None
    else
      var signed := |tail| > 1 && (tail[1] == '-' || tail[1] == '+');
      var digits := if signed then tail[2..] else tail[1..];
      if digits == "" || !AllDigits(digits) then None
      else
        var e := if signed && tail[1] == '-' then 0 - ToNat(digits) else ToNat(digits);
        Some(Decimal(ToNat(whole + frac), e - |frac|))
  }

  // ---- Numbers inside a cell --------------------------------------------------------------------

  predicate IsMinus(c: char) { c == '-' || c == '\U{2212}' }

  /** Length of the run of digits and commas a text begins with. */
  function NumberRun(s: string): (n: nat)
    ensures n <= |s|
  {
    if s != "" && (IsDigit(s[0]) || s[0] == ',') then 1 + NumberRun(s[1..]) else 0
  }

  /** Length of `[\\d,]+(\\.\\d+)?` at the start of a text, 0 when there is none. */
  function NumberLength(s: string): (n: nat)
    ensures n <= |s|
  {
    var n := NumberRun(s);
    if n > 0 && n < |s| && s[n] == '.' && Leading(s[n + 1..]) > 0 then n + 1 + Leading(s[n + 1..])
    else n
  }

  // ---- Writing ---------------------------------------------------------------------------------

  /** The digits left of the point when the last `k` of them go to its right. */
  function WholeDigits(coef: nat, k: nat): string {
    var digits := OfNat(coef);
    if |digits| > k then digits[..|digits| - k] else "0"
  }

  function FracDigits(coef: nat, k: nat): string {
    var digits := OfNat(coef);
    if |digits| > k then digits[|digits| - k..] else Zeros(k - |digits|) + digits
  }

  function Pointed(whole: string, frac: string): string {
    if frac == "" then whole else whole + "." + frac
  }

  function Signed(negative: bool, s: string): string { if negative then "-" + s else s }

  /** `f"{d:f}"` of a decimal with `k` places. */
  function Fixed(negative: bool, coef: nat, k: nat): string {
    Signed(negative, Pointed(WholeDigits(coef, k), FracDigits(coef, k)))
  }

  /** `str(d)` of a decimal with `k` places: small numbers are written with an exponent. */
  function Str(negative: bool, coef: nat, k: nat): string {
    var digits := OfNat(coef);
    if |digits| - k > -6 then Fixed(negative, coef, k)
    else Signed(negative, Pointed(digits[..1], digits[1..]) + "E-" + OfNat(k - |digits| + 1))
  }

  /** A comma before every third digit from the right. */
  function Group(s: string): string {
    if |s| <= 3 then s else Group(s[..|s| - 3]) + "," + s[|s| - 3..]
  }

  function RemoveCommas(s: string): string {
    if s == "" then "" else if s[0] == ',' then RemoveCommas(s[1..]) else [s[0]] + RemoveCommas(s[1..])
  }

  // ---- Round trips -----------------------------------------------------------------------------

  lemma SplitDigits(coef: nat, k: nat)
    ensures var whole, frac := WholeDigits(coef, k), FracDigits(coef, k);
      && AllDigits(whole) && AllDigits(frac) && whole != "" && |frac| == k
      && ToNat(whole + frac) == coef
  {
    hide OfNat, ToNat;
    var digits := OfNat(coef);
    var whole, frac := WholeDigits(coef, k), FracDigits(coef, k);
    ReadBack(coef);
    if |digits| > k {
      assert whole + frac == digits;
    } else {
      LeadingZeros(k - |digits| + 1, digits);
      assert whole + frac == Zeros(k - |digits| + 1) + digits;
    }
  }

  lemma PointedRest(whole: string, frac: string, tail: string)
    ensures frac != "" ==> Pointed(whole, frac) + tail == whole + ("." + (frac + tail))
  {
  }

  lemma ReadPointed(whole: string, frac: string, tail: string)
    requires AllDigits(whole) && AllDigits(frac) && whole != ""
    requires tail == "" || tail[0] == 'E'
    ensures ReadUnsigned(Pointed(whole, frac) + tail) == WithExponent(whole, frac, tail)
  {
    hide WithExponent, Leading, AllDigits;
    if frac == "" {
      LeadingRun(whole, tail);
    } else {
      var rest := "." + (frac + tail);
      PointedRest(whole, frac, tail);
      LeadingRun(whole, rest);
      LeadingRun(frac, tail);
      TailOfConcat(".", frac + tail);
    }
  }

  lemma ReadSigned(negative: bool, s: string, d: Decimal)
    requires s != "" && IsDigit(s[0]) && ReadUnsigned(s) == Some(d)
    ensures Read(Signed(negative, s)) == Some(Decimal(if negative then -d.coef else d.coef, d.exp))
  {
    hide ReadUnsigned;
    assert ("-" + s)[1..] == s;
  }

  function SignOf(negative: bool, coef: nat): int { if negative then 0 - coef else coef }

  lemma FixedReadsBack(negative: bool, coef: nat, k: nat)
    ensures Read(Fixed(negative, coef, k)) == Some(Decimal(SignOf(negative, coef), 0 - k))
  {
    hide Read, ReadUnsigned, WholeDigits, FracDigits, ToNat;
    SplitDigits(coef, k);
    var whole, frac := WholeDigits(coef, k), FracDigits(coef, k);
    ReadPointed(whole, frac, "");
    assert Pointed(whole, frac) + "" == Pointed(whole, frac);
    ReadSigned(negative, Pointed(whole, frac), Decimal(coef, 0 - k));
  }

  /** `Decimal(str(d))` is `d` again. */
  lemma StrReadsBack(negative: bool, coef: nat, k: nat)
    ensures Read(Str(negative, coef, k)) == Some(Decimal(SignOf(negative, coef), 0 - k))
  {
    hide Read, ReadUnsigned, ToNat, OfNat, Fixed;
    var digits := OfNat(coef);
    if |digits| - k > -6 {
      FixedReadsBack(negative, coef, k);
    } else {
      var e := k - |digits| + 1;
      var tail := "E-" + OfNat(e);
      ReadBack(coef);
      ReadBack(e);
      ReadPointed(digits[..1], digits[1..], tail);
      assert digits[..1] + digits[1..] == digits;
      assert tail[2..] == OfNat(e);
      var text := Pointed(digits[..1], digits[1..]) + tail;
      assert text == Pointed(digits[..1], digits[1..]) + "E-" + OfNat(e);
      ReadSigned(negative, text, Decimal(coef, 0 - k));
    }
  }

  lemma {:induction false} RemoveCommasConcat(a: string, b: string)
    ensures RemoveCommas(a + b) == RemoveCommas(a) + RemoveCommas(b)
  {
    if a == "" {
      assert a + b == b;
    } else {
      RemoveCommasConcat(a[1..], b);
      TailOfConcat(a, b);
      Assoc([a[0]], RemoveCommas(a[1..]), RemoveCommas(b));
    }
  }

  lemma {:induction false} NoCommas(s: string)
    requires ',' !in s
    ensures RemoveCommas(s) == s
  {
    if s != "" {
      NoCommas(s[1..]);
    }
  }

  lemma Rejoined(s: string, n: nat)
    requires n <= |s|
    ensures s[..n] + "" + s[n..] == s
  {
  }

  lemma {:induction false} Ungrouped(s: string)
    requires AllDigits(s)
    ensures RemoveCommas(Group(s)) == s
  {
    if |s| <= 3 {
      NoCommas(s);
    } else {
      var n := |s| - 3;
      Ungrouped(s[..n]);
      NoCommas(s[n..]);
      assert RemoveCommas(",") == "";
      hide RemoveCommas;
      RemoveCommasConcat(Group(s[..n]) + ",", s[n..]);
      RemoveCommasConcat(Group(s[..n]), ",");
      Rejoined(s, n);
    }
  }

  lemma UngroupedSign(negative: bool, s: string)
    ensures RemoveCommas(Signed(negative, s)) == Signed(negative, RemoveCommas(s))
  {
    RemoveCommasConcat("-", s);
  }

  lemma GroupedWholeReadsBack(negative: bool, n: nat)
    ensures Read(RemoveCommas(Signed(negative, Group(OfNat(n))))) == Some(Decimal(SignOf(negative, n), 0))
  {
    hide Read, RemoveCommas, Group, OfNat;
    UngroupedSign(negative, Group(OfNat(n)));
    Ungrouped(OfNat(n));
    FixedReadsBack(negative, n, 0);
    NoPlaces(n);
  }

  lemma NoPlaces(n: nat)
    ensures Pointed(WholeDigits(n, 0), FracDigits(n, 0)) == OfNat(n)
  {
    hide OfNat;
    var digits := OfNat(n);
    assert digits[..|digits| - 0] == digits && digits[|digits| - 0..] == "";
  }

  lemma GroupedPlacesReadBack(negative: bool, n: nat, k: nat)
    requires k > 0
    ensures Read(RemoveCommas(Signed(negative, Group(WholeDigits(n, k)) + "." + FracDigits(n, k))))
         == Some(Decimal(SignOf(negative, n), 0 - k))
  {
    hide Read, RemoveCommas, Group, WholeDigits, FracDigits, ToNat, OfNat;
    SplitDigits(n, k);
    var whole, frac := WholeDigits(n, k), FracDigits(n, k);
    UngroupedSign(negative, Group(whole) + "." + frac);
    RemoveCommasConcat(Group(whole) + ".", frac);
    RemoveCommasConcat(Group(whole), ".");
    Ungrouped(whole);
    NoCommas(".");
    NoCommas(frac);
    FixedReadsBack(negative, n, k);
  }

  lemma FromRight(g: string, t: string, i: nat)
    requires |t| == 3 && g != "" && i < |g| + 4
    ensures var r := g + "," + t;
      && r[|r| - 1 - i] == (if i < 3 then t[2 - i] else if i == 3 then ',' else g[|g| - 1 - (i - 4)])
      && r[0] == g[0]
  {
  }

  lemma GroupStep(s: string)
    requires |s| > 3
    ensures Group(s) == Group(s[..|s| - 3]) + "," + s[|s| - 3..]
  {
  }

  lemma {:induction false} GroupNonempty(s: string)
    requires s != ""
    ensures Group(s) != ""
  {
  }

  /** The commas stand after every third digit from the right and nowhere else. */
  lemma {:induction false} GroupedInThrees(s: string, i: nat)
    requires AllDigits(s) && i < |Group(s)|
    ensures Group(s)[|Group(s)| - 1 - i] == ',' <==> i % 4 == 3
    ensures Group(s)[0] != ','
    decreases |s|
  {
    if |s| > 3 {
      var front, last := s[..|s| - 3], s[|s| - 3..];
      assert AllDigits(front) && AllDigits(last);
      GroupStep(s);
      GroupNonempty(front);
      hide Group, AllDigits;
      FromRight(Group(front), last, i);
      GroupedInThrees(front, if i >= 4 then i - 4 else 0);
      LastAreDigits(last, i);
    }
  }

  lemma LastAreDigits(t: string, i: nat)
    requires AllDigits(t) && |t| == 3
    ensures i < 3 ==> t[2 - i] != ','
  {
  }
}
