/** Natural numbers written in decimal. */
module Digits {
  predicate IsDigit(c: char) { '0' <= c <= '9' }

  predicate AllDigits(s: string) { forall i :: 0 <= i < |s| ==> IsDigit(s[i]) }

  function DigitChar(d: nat): (c: char)
    requires d < 10
    ensures IsDigit(c)
  {
    '0' + d as char
  }

  function DigitValue(c: char): nat
    requires IsDigit(c)
  {
    (c - '0') as nat
  }

  /** The shortest decimal text of `n`. */
  function OfNat(n: nat): (s: string)
    ensures s != "" && AllDigits(s)
    ensures s[0] == '0' ==> n == 0 && s == "0"
  {
    if n < 10 then [DigitChar(n)] else OfNat(n / 10) + [DigitChar(n % 10)]
  }

  /** The number a digit text stands for, leading zeros included. */
  function ToNat(s: string): nat
    requires AllDigits(s)
  {
    if s == "" then 0 else 10 * ToNat(s[..|s| - 1]) + DigitValue(s[|s| - 1])
  }

  lemma {:induction false} ReadBack(n: nat)
    ensures ToNat(OfNat(n)) == n
  {
    if n < 10 {
      assert [DigitChar(n)][..0] == "";
    } else {
      ReadBack(n / 10);
      var s := OfNat(n);
      assert s[..|s| - 1] == OfNat(n / 10);
    }
  }

  lemma {:induction false} LastDigit(n: nat)
    ensures OfNat(n)[|OfNat(n)| - 1] == DigitChar(n % 10)
  {
  }

  function Zeros(n: nat): (s: string)
    ensures |s| == n && AllDigits(s)
  {
    seq(n, i => '0')
  }

  lemma {:induction false} LeadingZeros(n: nat, s: string)
    requires AllDigits(s)
    ensures ToNat(Zeros(n) + s) == ToNat(s)
    decreases n + |s|
  {
    var t := Zeros(n) + s;
    if s != "" {
      LeadingZeros(n, s[..|s| - 1]);
      assert t[..|t| - 1] == Zeros(n) + s[..|s| - 1];
    } else if n > 0 {
      LeadingZeros(n - 1, "");
      assert t[..|t| - 1] == Zeros(n - 1) + "";
    } else {
      assert t == "";
    }
  }

  /** Length of the run of digits a text begins with. */
  function Leading(s: string): (n: nat)
    ensures n <= |s| && AllDigits(s[..n])
  {
    if s == "" || !IsDigit(s[0]) then 0
    else
      assert s[..1 + Leading(s[1..])] == [s[0]] + s[1..][..Leading(s[1..])];
      1 + Leading(s[1..])
  }

  lemma {:induction false} LeadingRun(d: string, rest: string)
    requires AllDigits(d) && (rest == "" || !IsDigit(rest[0]))
    ensures Leading(d + rest) == |d|
    ensures (d + rest)[..|d|] == d && (d + rest)[|d|..] == rest
  {
    if d == "" {
      assert d + rest == rest;
    } else {
      LeadingRun(d[1..], rest);
      assert (d + rest)[1..] == d[1..] + rest;
    }
  }
}
