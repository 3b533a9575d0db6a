/** Decimal text of integers: the shortest form, with a sign when negative; the fixed width form
    that keeps the last digits; padding with zeros in front; and the reading of all of them back,
    with the round trips that tie them together. */
module Decimal {

  import opened Outcomes

  function Digit(d: nat): (c: char)
    requires d < 10
    ensures IsDigit(c) && DigitValue(c) == d
  {
    ('0' as int + d) as char
  }

  predicate IsDigit(c: char) { '0' <= c <= '9' }

  function DigitValue(c: char): nat
    requires IsDigit(c)
  {
    c as int - '0' as int
  }

  predicate AllDigits(s: string) {
    forall i :: 0 <= i < |s| ==> IsDigit(s[i])
  }

  function NatText(n: nat): string {
    if n < 10 then [Digit(n)] else NatText(n / 10) + [Digit(n % 10)]
  }

  function IntText(n: int): string {
    if n < 0 then "-" + NatText(-n) else NatText(n)
  }

  function ParseNat(s: string): nat
    requires AllDigits(s)
  {
    if s == "" then 0 else ParseNat(s[..|s| - 1]) * 10 + DigitValue(s[|s| - 1])
  }

  /** The text `-?[0-9]+` as an integer. */
  function ParseInt(s: string): Option<int> {
    if s != "" && s[0] == '-' then
      if |s| > 1 && AllDigits(s[1..]) then Some(0 - ParseNat(s[1..])) else None
    else if s != "" && AllDigits(s) then Some(ParseNat(s)) else None
  }

  function Pow10(w: nat): nat {
    if w == 0 then 1 else 10 * Pow10(w - 1)
  }

  /** The last `w` decimal digits of `n`. */
  function Pad(n: nat, w: nat): (s: string)
    ensures |s| == w && AllDigits(s)
  {
    if w == 0 then "" else Pad(n / 10, w - 1) + [Digit(n % 10)]
  }

  lemma {:induction false} NatRoundTrip(n: nat)
    ensures AllDigits(NatText(n)) && NatText(n) != "" && ParseNat(NatText(n)) == n
  {
    if n >= 10 {
      NatRoundTrip(n / 10);
      assert NatText(n)[..|NatText(n)| - 1] == NatText(n / 10);
    } else {
      assert ParseNat([Digit(n)]) == ParseNat("") * 10 + n;
    }
  }

  lemma IntRoundTrip(n: int)
    ensures ParseInt(IntText(n)) == Some(n)
  {
    NatRoundTrip(if n < 0 then -n else n);
    if n < 0 {
      assert IntText(n)[1..] == NatText(-n);
    } else {
      assert IsDigit(IntText(n)[0]);
    }
  }

  lemma {:induction false} NatTextLength(n: nat, w: nat)
    requires w >= 1 && n < Pow10(w)
    ensures |NatText(n)| <= w
  {
    if n >= 10 {
      NatTextLength(n / 10, w - 1);
    }
  }

  lemma {:induction false} PadRoundTrip(n: nat, w: nat)
    requires n < Pow10(w)
    ensures ParseNat(Pad(n, w)) == n
  {
    if w > 0 {
      PadRoundTrip(n / 10, w - 1);
      assert Pad(n, w)[..w - 1] == Pad(n / 10, w - 1);
    }
  }

  lemma {:induction false} PadOfParse(s: string)
    requires AllDigits(s)
    ensures Pad(ParseNat(s), |s|) == s && ParseNat(s) < Pow10(|s|)
  {
    if s != "" {
      var n := ParseNat(s);
      PadOfParse(s[..|s| - 1]);
      assert n / 10 == ParseNat(s[..|s| - 1]) && n % 10 == DigitValue(s[|s| - 1]);
      assert s == s[..|s| - 1] + [s[|s| - 1]];
    }
  }

  /** `padStart` with zeros. */
  function PadStart(s: string, w: nat): string
    decreases w - |s|
  {
    if |s| >= w then s else PadStart("0" + s, w)
  }

  lemma {:induction false} PadStartIsPad(n: nat, w: nat)
    requires n < Pow10(w) && w >= 1
    ensures PadStart(NatText(n), w) == Pad(n, w)
  {
    NatRoundTrip(n);
    NatTextLength(n, w);
    PadOfParse(NatText(n));
    ZerosInFront(NatText(n), w);
  }

  lemma {:induction false} ZerosInFront(s: string, w: nat)
    requires AllDigits(s) && |s| <= w
    ensures PadStart(s, w) == Pad(ParseNat(s), w)
    decreases w - |s|
  {
    if |s| == w {
      PadOfParse(s);
    } else {
      LeadingZero(s);
      ZerosInFront("0" + s, w);
    }
  }

  lemma {:induction false} LeadingZero(s: string)
    requires AllDigits(s)
    ensures AllDigits("0" + s) && ParseNat("0" + s) == ParseNat(s)
  {
    var t := "0" + s;
    if s == "" {
      assert t[..0] == "" && ParseNat(t) == ParseNat(t[..0]) * 10 + 0;
    } else {
      LeadingZero(s[..|s| - 1]);
      assert t[..|t| - 1] == "0" + s[..|s| - 1];
    }
  }
}
