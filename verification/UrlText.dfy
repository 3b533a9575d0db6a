/** Text in a URL: UTF-8, percent escapes, and the urlencoded format of section 5 of the WHATWG URL
    Standard, each with its decoder. */
module UrlText {
  import opened Outcomes
  import opened Bytes

  // UTF-8.

  function EncodeChar(c: char): bytes {
    var n := c as int;
    if n < 0x80 then [n]
    else if n < 0x800 then [0xC0 + n / 64, 0x80 + n % 64]
    else if n < 0x1_0000 then [0xE0 + n / 4096, 0x80 + n / 64 % 64, 0x80 + n % 64]
    else [0xF0 + n / 262144, 0x80 + n / 4096 % 64, 0x80 + n / 64 % 64, 0x80 + n % 64]
  }

  function EncodeUtf8(s: string): bytes {
    if s == "" then [] else EncodeChar(s[0]) + EncodeUtf8(s[1..])
  }

  const REPLACEMENT := 0xFFFD as char

  /** The bounds below leave only scalar values, so the replacement is never taken here. */
  function Scalar(n: nat): char {
    if n < 0xD800 || 0xE000 <= n < 0x11_0000 then n as char else REPLACEMENT
  }

  /** The decoder of the Encoding Standard: a byte that cannot continue its sequence ends it with a
      replacement character and is read again. */
  function DecodeUtf8(b: bytes): string
    decreases |b|, 0
  {
    if b == [] then ""
    else
      var lead, rest := b[0], b[1..];
      if lead < 0x80 then [lead as char] + DecodeUtf8(rest)
      else if 0xC2 <= lead <= 0xDF then Continue(rest, 1, lead - 0xC0, 0x80, 0xBF)
      else if 0xE0 <= lead <= 0xEF then
        Continue(rest, 2, lead - 0xE0, if lead == 0xE0 then 0xA0 else 0x80, if lead == 0xED then 0x9F else 0xBF)
      else if 0xF0 <= lead <= 0xF4 then
        Continue(rest, 3, lead - 0xF0, if lead == 0xF0 then 0x90 else 0x80, if lead == 0xF4 then 0x8F else 0xBF)
      else [REPLACEMENT] + DecodeUtf8(rest)
  }

  function Continue(b: bytes, needed: nat, point: nat, lower: nat, upper: nat): string
    decreases |b|, 1
  {
    if b == [] then [REPLACEMENT]
    else if b[0] < 0x80 || !(lower <= b[0] <= upper) then [REPLACEMENT] + DecodeUtf8(b)
    else
      var more := point * 64 + (b[0] - 0x80);
      if needed <= 1 then [Scalar(more)] + DecodeUtf8(b[1..]) else Continue(b[1..], needed - 1, more, 0x80, 0xBF)
  }

  lemma TwoDigits(n: nat)
    ensures n == 64 * (n / 64) + n % 64
  {
  }

  lemma ThreeDigits(n: nat)
    ensures n / 4096 == n / 64 / 64 && n == 64 * (64 * (n / 4096) + n / 64 % 64) + n % 64
  {
  }

  lemma FourDigits(n: nat)
    ensures n / 262144 == n / 4096 / 64
    ensures n == 64 * (64 * (64 * (n / 262144) + n / 4096 % 64) + n / 64 % 64) + n % 64
  {
    ThreeDigits(n);
    TwoDigits(n / 4096);
  }

  lemma OneMore(d: nat, rest: bytes, needed: nat, point: nat, lower: nat, upper: nat)
    requires d < 64 && needed > 1 && lower <= 0x80 + d <= upper
    ensures Continue([0x80 + d] + rest, needed, point, lower, upper) == Continue(rest, needed - 1, point * 64 + d, 0x80, 0xBF)
  {
    assert ([0x80 + d] + rest)[1..] == rest;
  }

  lemma ThreeBytes(lead: nat, y: nat, z: nat, rest: bytes)
    requires lead < 16 && y < 64 && z < 64 && (lead == 0 ==> y >= 0x20) && (lead == 13 ==> y < 0x20)
    ensures DecodeUtf8([0xE0 + lead, 0x80 + y, 0x80 + z] + rest) == [Scalar((lead * 64 + y) * 64 + z)] + DecodeUtf8(rest)
  {
    hide Scalar;
    var lower, upper := if lead == 0 then 0xA0 else 0x80, if lead == 13 then 0x9F else 0xBF;
    var b, last := [0xE0 + lead, 0x80 + y, 0x80 + z] + rest, [0x80 + z] + rest;
    assert b[1..] == [0x80 + y] + last;
    OneMore(y, last, 2, lead, lower, upper);
  }

  lemma FourBytes(lead: nat, x: nat, y: nat, z: nat, rest: bytes)
    requires lead < 5 && x < 64 && y < 64 && z < 64 && (lead == 0 ==> x >= 0x10) && (lead == 4 ==> x < 0x10)
    ensures DecodeUtf8([0xF0 + lead, 0x80 + x, 0x80 + y, 0x80 + z] + rest)
         == [Scalar(((lead * 64 + x) * 64 + y) * 64 + z)] + DecodeUtf8(rest)
  {
    hide Scalar;
    var lower, upper := if lead == 0 then 0x90 else 0x80, if lead == 4 then 0x8F else 0xBF;
    var b, last := [0xF0 + lead, 0x80 + x, 0x80 + y, 0x80 + z] + rest, [0x80 + z] + rest;
    assert b[1..] == [0x80 + x] + ([0x80 + y] + last);
    OneMore(x, [0x80 + y] + last, 3, lead, lower, upper);
    OneMore(y, last, 2, lead * 64 + x, 0x80, 0xBF);
  }

  lemma EncodeThree(c: char, lead: nat, y: nat, z: nat)
    requires 0x800 <= c as int < 0x1_0000 && lead == c as int / 4096 && y == c as int / 64 % 64 && z == c as int % 64
    ensures lead < 16 && EncodeChar(c) == [0xE0 + lead, 0x80 + y, 0x80 + z]
  {
  }

  lemma EncodeFour(c: char, lead: nat, x: nat, y: nat, z: nat)
    requires 0x1_0000 <= c as int && lead == c as int / 262144 && x == c as int / 4096 % 64
    requires y == c as int / 64 % 64 && z == c as int % 64
    ensures lead < 5 && EncodeChar(c) == [0xF0 + lead, 0x80 + x, 0x80 + y, 0x80 + z]
  {
  }

  lemma DecodeThree(c: char, lead: nat, y: nat, z: nat, rest: bytes)
    requires lead < 16 && y < 64 && z < 64 && (lead == 0 ==> y >= 0x20) && (lead == 13 ==> y < 0x20)
    requires c as int == (lead * 64 + y) * 64 + z && EncodeChar(c) == [0xE0 + lead, 0x80 + y, 0x80 + z]
    ensures DecodeUtf8(EncodeChar(c) + rest) == [c] + DecodeUtf8(rest)
  {
    hide DecodeUtf8, EncodeChar;
    ThreeBytes(lead, y, z, rest);
  }

  lemma DecodeFour(c: char, lead: nat, x: nat, y: nat, z: nat, rest: bytes)
    requires lead < 5 && x < 64 && y < 64 && z < 64 && (lead == 0 ==> x >= 0x10) && (lead == 4 ==> x < 0x10)
    requires c as int == ((lead * 64 + x) * 64 + y) * 64 + z
    requires EncodeChar(c) == [0xF0 + lead, 0x80 + x, 0x80 + y, 0x80 + z]
    ensures DecodeUtf8(EncodeChar(c) + rest) == [c] + DecodeUtf8(rest)
  {
    hide DecodeUtf8, EncodeChar;
    FourBytes(lead, x, y, z, rest);
  }

  lemma DecodeOne(c: char, rest: bytes)
    ensures DecodeUtf8(EncodeChar(c) + rest) == [c] + DecodeUtf8(rest)
  {
    var n := c as int;
    if n < 0x80 {
      assert ([n] + rest)[1..] == rest;
    } else if n < 0x800 {
    } else {
      DecodeLong(c, rest);
    }
  }

  lemma DecodeLong(c: char, rest: bytes)
    requires c as int >= 0x800
    ensures DecodeUtf8(EncodeChar(c) + rest) == [c] + DecodeUtf8(rest)
  {
    hide DecodeUtf8, EncodeChar;
    var n := c as int;
    if n < 0x1_0000 {
      var lead, y, z := n / 4096, n / 64 % 64, n % 64;
      ThreeDigits(n);
      EncodeThree(c, lead, y, z);
      DecodeThree(c, lead, y, z, rest);
    } else {
      var lead, x, y, z := n / 262144, n / 4096 % 64, n / 64 % 64, n % 64;
      FourDigits(n);
      EncodeFour(c, lead, x, y, z);
      DecodeFour(c, lead, x, y, z, rest);
    }
  }

  lemma {:induction false} Utf8RoundTrip(s: string)
    ensures DecodeUtf8(EncodeUtf8(s)) == s
  {
    hide EncodeChar, DecodeUtf8;
    if s != "" {
      DecodeOne(s[0], EncodeUtf8(s[1..]));
      Utf8RoundTrip(s[1..]);
    } else {
      DecodeNothing();
    }
  }

  lemma DecodeNothing()
    ensures DecodeUtf8([]) == ""
  {
  }

  lemma {:induction false} EncodeConcat(s: string, t: string)
    ensures EncodeUtf8(s + t) == EncodeUtf8(s) + EncodeUtf8(t)
  {
    hide EncodeChar;
    if s == "" {
      assert s + t == t;
    } else {
      assert (s + t)[1..] == s[1..] + t;
      EncodeConcat(s[1..], t);
    }
  }

  // Percent escapes.

  predicate IsHexByte(b: byte) {
    '0' as int <= b <= '9' as int || 'A' as int <= b <= 'F' as int || 'a' as int <= b <= 'f' as int
  }

  function HexByteValue(b: byte): (v: nat)
    requires IsHexByte(b)
    ensures v < 16
  {
    if b <= '9' as int then b - '0' as int
    else if b <= 'F' as int then b - 'A' as int + 10
    else b - 'a' as int + 10
  }

  function UpperHex(d: nat): (c: char)
    requires d < 16
    ensures c as int < 0x80 && IsHexByte(c as int) && HexByteValue(c as int) == d
  {
    if d < 10 then ('0' as int + d) as char else ('A' as int + d - 10) as char
  }

  /** Digits and letters of either case, with the values they have. */
  lemma HexBytesAre(b: byte)
    ensures var upper, lower := "0123456789ABCDEF", "0123456789abcdef";
      && (IsHexByte(b) ==> b as char == upper[HexByteValue(b)] || b as char == lower[HexByteValue(b)])
      && forall d: nat :: d < 16 ==> IsHexByte(upper[d] as int) && IsHexByte(lower[d] as int)
  {
  }

  const PERCENT := '%' as int

  function PercentDecode(b: bytes): bytes {
    if b == [] then []
    else if b[0] == PERCENT && |b| >= 3 && IsHexByte(b[1]) && IsHexByte(b[2]) then
      [HexByteValue(b[1]) * 16 + HexByteValue(b[2])] + PercentDecode(b[3..])
    else [b[0]] + PercentDecode(b[1..])
  }

  // The urlencoded format.

  predicate Unescaped(b: byte) {
    || '0' as int <= b <= '9' as int || 'A' as int <= b <= 'Z' as int || 'a' as int <= b <= 'z' as int
    || b == '*' as int || b == '-' as int || b == '.' as int || b == '_' as int
  }

  function SerializeByte(b: byte): string {
    if b == ' ' as int then "+"
    else if Unescaped(b) then [b as char]
    else ['%', UpperHex(b / 16), UpperHex(b % 16)]
  }

  /** The format writes a space as `+`; the bytes 2A, 2D, 2E, 5F and those of digits and letters as themselves; and
      every other byte as `%` and two upper-case hexadecimal digits. */
  lemma ByteIsWritten(b: byte)
    ensures var digits := "0123456789ABCDEF";
      if b == 0x20 then SerializeByte(b) == "+"
      else if b == 0x2A || b == 0x2D || b == 0x2E || b == 0x5F
        || 0x30 <= b <= 0x39 || 0x41 <= b <= 0x5A || 0x61 <= b <= 0x7A
      then SerializeByte(b) == [b as char]
      else SerializeByte(b) == ['%', digits[b / 16], digits[b % 16]]
  {
    hide UpperHex;
    HexDigits(b / 16);
    HexDigits(b % 16);
  }

  lemma HexDigits(d: nat)
    requires d < 16
    ensures UpperHex(d) == "0123456789ABCDEF"[d]
  {
  }

  function SerializeBytes(b: bytes): string {
    if b == [] then "" else SerializeByte(b[0]) + SerializeBytes(b[1..])
  }

  function SerializeText(s: string): string {
    SerializeBytes(EncodeUtf8(s))
  }

  function PlusToSpace(s: string): (t: string)
    ensures |t| == |s|
  {
    if s == "" then "" else [if s[0] == '+' then ' ' else s[0]] + PlusToSpace(s[1..])
  }

  function ParseText(s: string): string {
    DecodeUtf8(PercentDecode(EncodeUtf8(PlusToSpace(s))))
  }

  datatype Pair = Pair(name: string, value: string)

  function SerializePair(p: Pair): string {
    SerializeText(p.name) + "=" + SerializeText(p.value)
  }

  function SerializeQuery(ps: seq<Pair>): string {
    if ps == [] then ""
    else if |ps| == 1 then SerializePair(ps[0])
    else SerializePair(ps[0]) + "&" + SerializeQuery(ps[1..])
  }

  /** The text before the first `c`, or all of it. */
  function Before(s: string, c: char): (t: string)
    ensures t <= s && c !in t && (|t| < |s| ==> s[|t|] == c)
  {
    if s == "" || s[0] == c then "" else [s[0]] + Before(s[1..], c)
  }

  /** The text after the first `c`, or nothing. */
  function After(s: string, c: char): (t: string)
    ensures s != "" ==> |t| < |s|
  {
    var before := Before(s, c);
    if |before| < |s| then s[|before| + 1..] else ""
  }

  function ParsePair(part: string): Pair {
    Pair(ParseText(Before(part, '=')), ParseText(After(part, '=')))
  }

  function ParseQuery(s: string): seq<Pair>
    decreases |s|
  {
    if s == "" then []
    else
      var part := Before(s, '&');
      (if part == "" then [] else [ParsePair(part)]) + ParseQuery(After(s, '&'))
  }

  lemma {:induction false} SplitsHere(t: string, c: char, rest: string)
    requires c !in t
    ensures Before(t + [c] + rest, c) == t && After(t + [c] + rest, c) == rest
  {
    if t != "" {
      assert (t + [c] + rest)[1..] == t[1..] + [c] + rest;
      SplitsHere(t[1..], c, rest);
    }
  }

  lemma {:induction false} NoSplit(t: string, c: char)
    requires c !in t
    ensures Before(t, c) == t && After(t, c) == ""
  {
    if t != "" {
      NoSplit(t[1..], c);
    }
  }

  predicate Plain(s: string) { '&' !in s && '=' !in s }

  lemma {:induction false} SerializedIsPlain(b: bytes)
    ensures Plain(SerializeBytes(b))
  {
    if b != [] {
      SerializedIsPlain(b[1..]);
      BytesArePlain(b[0]);
    }
  }

  lemma BytesArePlain(b: byte)
    ensures Plain(SerializeByte(b))
  {
    assert forall d: nat :: d < 16 ==> IsHexByte(UpperHex(d) as int);
  }

  lemma {:induction false} PlusConcat(s: string, t: string)
    ensures PlusToSpace(s + t) == PlusToSpace(s) + PlusToSpace(t)
  {
    if s == "" {
      assert s + t == t;
    } else {
      assert (s + t)[1..] == s[1..] + t;
      PlusConcat(s[1..], t);
    }
  }

  /** One byte, serialized and read back. */
  lemma ByteBack(b: byte, rest: bytes)
    ensures PercentDecode(EncodeUtf8(PlusToSpace(SerializeByte(b))) + rest) == [b] + PercentDecode(rest)
  {
    if b == ' ' as int {
      ThreeAscii(" ", []);
      assert PlusToSpace("+") == " ";
      assert EncodeUtf8(" ") == [0x20];
      assert ([0x20] + rest)[1..] == rest;
    } else if Unescaped(b) {
      var t := [b as char];
      assert PlusToSpace(t) == t && EncodeUtf8(t) == [b];
      assert ([b] + rest)[1..] == rest;
    } else {
      var x, y := UpperHex(b / 16), UpperHex(b % 16);
      ThreeAscii("", [x, y]);
      var c: bytes := [PERCENT, x as int, y as int];
      assert EncodeUtf8(PlusToSpace(SerializeByte(b))) == c;
      assert (c + rest)[3..] == rest;
      assert (c + rest)[1] == c[1] && (c + rest)[2] == c[2];
    }
  }

  lemma ThreeAscii(t: string, xy: string)
    ensures |xy| == 2 && xy[0] as int < 0x80 && xy[1] as int < 0x80 && xy[0] != '+' && xy[1] != '+' ==>
      EncodeUtf8(PlusToSpace(['%'] + xy)) == [PERCENT, xy[0] as int, xy[1] as int]
  {
    if |xy| == 2 && xy[0] as int < 0x80 && xy[1] as int < 0x80 && xy[0] != '+' && xy[1] != '+' {
      var s := ['%'] + xy;
      assert s[1..] == xy && xy[1..] == [xy[1]] && xy[1..][1..] == "";
      assert PlusToSpace(xy[1..]) == xy[1..];
      assert PlusToSpace(xy) == xy;
      assert PlusToSpace(s) == s;
      assert EncodeUtf8(xy[1..]) == [xy[1] as int];
      assert EncodeUtf8(xy) == [xy[0] as int, xy[1] as int];
    }
  }

  lemma {:induction false} BytesBack(b: bytes)
    ensures PercentDecode(EncodeUtf8(PlusToSpace(SerializeBytes(b)))) == b
  {
    hide SerializeByte, EncodeChar;
    if b != [] {
      var head, tail := SerializeByte(b[0]), SerializeBytes(b[1..]);
      PlusConcat(head, tail);
      EncodeConcat(PlusToSpace(head), PlusToSpace(tail));
      ByteBack(b[0], EncodeUtf8(PlusToSpace(tail)));
      BytesBack(b[1..]);
    }
  }

  /** Any text survives the urlencoded format. */
  lemma TextRoundTrip(s: string)
    ensures ParseText(SerializeText(s)) == s && Plain(SerializeText(s))
  {
    BytesBack(EncodeUtf8(s));
    Utf8RoundTrip(s);
    SerializedIsPlain(EncodeUtf8(s));
  }

  lemma PairRoundTrip(p: Pair)
    ensures ParsePair(SerializePair(p)) == p && '&' !in SerializePair(p) && SerializePair(p) != ""
  {
    hide ParseText, SerializeText;
    TextRoundTrip(p.name);
    TextRoundTrip(p.value);
    SplitsHere(SerializeText(p.name), '=', SerializeText(p.value));
  }

  /** Any list of names and values survives, in its order, repeats and empty texts included. */
  lemma {:induction false} QueryRoundTrip(ps: seq<Pair>)
    ensures ParseQuery(SerializeQuery(ps)) == ps
  {
    hide SerializePair, ParsePair, Before, After;
    if ps != [] {
      PairRoundTrip(ps[0]);
      var part := SerializePair(ps[0]);
      if |ps| == 1 {
        NoSplit(part, '&');
        assert ParseQuery("") == [];
        assert ps == [ps[0]];
      } else {
        SplitsHere(part, '&', SerializeQuery(ps[1..]));
        QueryRoundTrip(ps[1..]);
        assert ps == [ps[0]] + ps[1..];
      }
    }
  }
}
