/** Lower-case hexadecimal text, as `toString(16)` prints it, and the 16-digit key of a 64-bit hash.
    Reading the digits back gives the number, so keys of different hashes differ and can serve as
    the names of cache entries. */
module Hex {
  import opened Decimal

  predicate IsHexDigit(c: char) { '0' <= c <= '9' || 'a' <= c <= 'f' }

  function HexValue(c: char): nat
    requires IsHexDigit(c)
  {
    if c <= '9' then c as int - '0' as int else c as int - 'a' as int + 10
  }

  function HexDigit(d: nat): (c: char)
    requires d < 16
    ensures IsHexDigit(c) && HexValue(c) == d
  {
    if d < 10 then ('0' as int + d) as char else ('a' as int + d - 10) as char
  }

  predicate AllHex(s: string) {
    forall i :: 0 <= i < |s| ==> IsHexDigit(s[i])
  }

  /** `toString(16)` */
  function HexText(n: nat): string {
    if n < 16 then [HexDigit(n)] else HexText(n / 16) + [HexDigit(n % 16)]
  }

  /** The 16-digit key of a 64-bit hash. */
  function Hex16(n: nat): string {
    PadStart(HexText(n), 16)
  }

  function ParseHex(s: string): nat
    requires AllHex(s)
  {
    if s == "" then 0 else ParseHex(s[..|s| - 1]) * 16 + HexValue(s[|s| - 1])
  }

  lemma {:induction false} HexRoundTrip(n: nat)
    ensures AllHex(HexText(n)) && ParseHex(HexText(n)) == n
  {
    var t := HexText(n);
    if n >= 16 {
      HexRoundTrip(n / 16);
      assert t[..|t| - 1] == HexText(n / 16);
    } else {
      assert t[..0] == "" && ParseHex(t) == ParseHex(t[..0]) * 16 + n;
    }
  }

  lemma {:induction false} LeadingHexZero(s: string)
    requires AllHex(s)
    ensures AllHex("0" + s) && ParseHex("0" + s) == ParseHex(s)
  {
    var t := "0" + s;
    if s == "" {
      assert t[..0] == "" && ParseHex(t) == ParseHex(t[..0]) * 16 + 0;
    } else {
      LeadingHexZero(s[..|s| - 1]);
      assert t[..|t| - 1] == "0" + s[..|s| - 1];
    }
  }

  lemma {:induction false} PaddedHex(s: string, w: nat)
    requires AllHex(s)
    ensures AllHex(PadStart(s, w)) && ParseHex(PadStart(s, w)) == ParseHex(s)
    ensures |s| <= w ==> |PadStart(s, w)| == w
    decreases w - |s|
  {
    if |s| < w {
      LeadingHexZero(s);
      PaddedHex("0" + s, w);
    }
  }

  function Pow16(k: nat): nat {
    if k == 0 then 1 else 16 * Pow16(k - 1)
  }

  lemma {:induction false} HexLength(n: nat, w: nat)
    requires 1 <= w && n < Pow16(w)
    ensures |HexText(n)| <= w
  {
    if n >= 16 {
      HexLength(n / 16, w - 1);
    }
  }

  /** The key of a 64-bit hash is its 16 hexadecimal digits, so different hashes have different keys. */
  lemma KeysAreInjective(m: nat, n: nat)
    requires m < 0x1_0000_0000_0000_0000 && n < 0x1_0000_0000_0000_0000
    ensures |Hex16(m)| == 16 && AllHex(Hex16(m)) && ParseHex(Hex16(m)) == m
    ensures Hex16(m) == Hex16(n) ==> m == n
  {
    HexRoundTrip(m);
    HexRoundTrip(n);
    assert Pow16(8) == 0x1_0000_0000 && Pow16(16) == 0x1_0000_0000 * Pow16(8);
    HexLength(m, 16);
    PaddedHex(HexText(m), 16);
    PaddedHex(HexText(n), 16);
  }
}
