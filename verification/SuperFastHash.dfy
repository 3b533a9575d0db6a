/** Paul Hsieh's SuperFastHash: the loop over JavaScript numbers, with their shifts and wraps, and the
    definition over 32-bit words that it computes. */
module SuperFastHash {
  import opened Bytes

  const TWO_31: int := 0x8000_0000
  const TWO_32: int := 0x1_0000_0000

  type word = n: int | 0 <= n < TWO_32

  function Pow2(k: nat): (p: nat)
    ensures p >= 1
  {
    if k == 0 then 1 else 2 * Pow2(k - 1)
  }

  // 32-bit words.

  function Add(a: word, b: word): word { (a + b) % TWO_32 }

  function ShiftLeft(a: word, k: nat): word { a * Pow2(k) % TWO_32 }

  function ShiftRight(a: word, k: nat): word {
    Shrinks(a, Pow2(k));
    a / Pow2(k)
  }

  lemma Shrinks(a: nat, p: nat)
    requires p >= 1
    ensures 0 <= a / p <= a
  {
    var q, r := a / p, a % p;
    assert a == p * q + r && q >= 0;
  }

  /** The exclusive or of the lowest `k` bits. */
  function XorBits(a: nat, b: nat, k: nat): (r: nat)
    ensures r < Pow2(k)
  {
    if k == 0 then 0 else 2 * XorBits(a / 2, b / 2, k - 1) + (if a % 2 == b % 2 then 0 else 1)
  }

  /** The inclusive or, and the and, of the lowest `k` bits. */
  function OrBits(a: nat, b: nat, k: nat): (r: nat)
    ensures r < Pow2(k)
  {
    if k == 0 then 0 else 2 * OrBits(a / 2, b / 2, k - 1) + (if a % 2 == 1 || b % 2 == 1 then 1 else 0)
  }

  function AndBits(a: nat, b: nat, k: nat): (r: nat)
    ensures r < Pow2(k)
  {
    if k == 0 then 0 else 2 * AndBits(a / 2, b / 2, k - 1) + (if a % 2 == 1 && b % 2 == 1 then 1 else 0)
  }

  /** The binary digit of `n` at place `i`. */
  function Bit(n: nat, i: nat): (b: nat)
    ensures b <= 1
  {
    if i == 0 then n % 2 else Bit(n / 2, i - 1)
  }

  /** The three operators work digit by digit. */
  lemma {:induction false} BitsSay(a: nat, b: nat, k: nat, i: nat)
    requires i < k
    ensures Bit(XorBits(a, b, k), i) == 1 <==> Bit(a, i) != Bit(b, i)
    ensures Bit(OrBits(a, b, k), i) == 1 <==> Bit(a, i) == 1 || Bit(b, i) == 1
    ensures Bit(AndBits(a, b, k), i) == 1 <==> Bit(a, i) == 1 && Bit(b, i) == 1
  {
    if i > 0 {
      BitsSay(a / 2, b / 2, k - 1, i - 1);
    }
  }

  /** The lowest `j` bits are clear. */
  predicate ClearBelow(c: nat, j: nat) {
    j == 0 || (c % 2 == 0 && ClearBelow(c / 2, j - 1))
  }

  lemma {:induction false} ShiftedIsClear(b: nat, j: nat)
    ensures ClearBelow(b * Pow2(j), j)
  {
    if j > 0 {
      assert b * Pow2(j) == 2 * (b * Pow2(j - 1));
      ShiftedIsClear(b, j - 1);
    }
  }

  /** Of bits in ranges that do not meet, the or is the sum. */
  lemma {:induction false} OrIsSum(a: nat, c: nat, j: nat, k: nat)
    requires a < Pow2(j) && ClearBelow(c, j) && a + c < Pow2(k)
    ensures OrBits(a, c, k) == a + c
  {
    if k > 0 {
      OrIsSum(a / 2, c / 2, if j > 0 then j - 1 else 0, k - 1);
    }
  }

  /** The two lowest bits are the remainder by 4. */
  lemma AndOfThree(n: nat, k: nat)
    requires k >= 2
    ensures AndBits(n, 3, k) == n % 4
  {
    AndOfOne(n / 2, k - 1);
    hide AndBits;
    assert n % 4 == 2 * (n / 2 % 2) + n % 2;
    AndNext(n, k);
  }

  lemma AndNext(n: nat, k: nat)
    requires k >= 1
    ensures AndBits(n, 3, k) == 2 * AndBits(n / 2, 1, k - 1) + n % 2
  {
  }

  lemma AndOfOne(n: nat, k: nat)
    requires k >= 1
    ensures AndBits(n, 1, k) == n % 2
  {
    AndOfZero(n / 2, k - 1);
  }

  lemma {:induction false} AndOfZero(n: nat, k: nat)
    ensures AndBits(n, 0, k) == 0
  {
    if k > 0 {
      AndOfZero(n / 2, k - 1);
    }
  }

  function Xor(a: word, b: word): word {
    Pow2Of32();
    XorBits(a, b, 32)
  }

  lemma Pow2Of32()
    ensures Pow2(32) == TWO_32
  {
    assert Pow2(8) == 256 && Pow2(16) == 256 * Pow2(8) && Pow2(24) == 256 * Pow2(16) && Pow2(32) == 256 * Pow2(24);
  }

  /** A 16-bit little-endian half. */
  function Half(lo: byte, hi: byte): word { lo + 256 * hi }

  /** A byte as a signed word. */
  function SignedWord(b: byte): word {
    if b < 128 then b else b + TWO_32 - 256
  }

  function Mix(h: word, b0: byte, b1: byte, b2: byte, b3: byte): word {
    var h1 := Add(h, Half(b0, b1));
    var h2 := Xor(ShiftLeft(h1, 16), Xor(ShiftLeft(Half(b2, b3), 11), h1));
    Add(h2, ShiftRight(h2, 11))
  }

  function Tail(h: word, t: bytes): word
    requires |t| < 4
  {
    if |t| == 3 then
      var h1 := Add(h, Half(t[0], t[1]));
      var h2 := Xor(Xor(h1, ShiftLeft(h1, 16)), ShiftLeft(SignedWord(t[2]), 18));
      Add(h2, ShiftRight(h2, 11))
    else if |t| == 2 then
      var h1 := Add(h, Half(t[0], t[1]));
      var h2 := Xor(h1, ShiftLeft(h1, 11));
      Add(h2, ShiftRight(h2, 17))
    else if |t| == 1 then
      var h1 := Add(h, SignedWord(t[0]));
      var h2 := Xor(h1, ShiftLeft(h1, 10));
      Add(h2, ShiftRight(h2, 1))
    else h
  }

  function Avalanche(h: word): word {
    var h1 := Xor(h, ShiftLeft(h, 3));
    var h2 := Add(h1, ShiftRight(h1, 5));
    var h3 := Xor(h2, ShiftLeft(h2, 4));
    var h4 := Add(h3, ShiftRight(h3, 17));
    var h5 := Xor(h4, ShiftLeft(h4, 10));
    Add(h5, ShiftRight(h5, 6))
  }

  /** Four bytes at a time, then the tail. */
  function Absorb(h: word, data: bytes): word
    decreases |data|
  {
    if |data| < 4 then Tail(h, data) else Absorb(Mix(h, data[0], data[1], data[2], data[3]), data[4..])
  }

  function Hash(data: bytes): word {
    if data == [] then 0 else Avalanche(Absorb(|data| % TWO_32, data))
  }

  // JavaScript numbers: exact integers up to 2^53, bitwise operators on their 32-bit patterns.

  predicate Exact(n: int) { -9_007_199_254_740_991 <= n <= 9_007_199_254_740_991 }

  function ToUint32(n: int): word { n % TWO_32 }

  function ToInt32(n: int): (r: int)
    ensures -TWO_31 <= r < TWO_31
  {
    if ToUint32(n) < TWO_31 then ToUint32(n) else ToUint32(n) - TWO_32
  }

  /** `a << k` */
  function JsShl(a: int, k: nat): int { ToInt32(ToUint32(a) * Pow2(k)) }

  /** `a >> k` */
  function JsSar(a: int, k: nat): int { ToInt32(a) / Pow2(k) }

  /** `a >>> k` */
  function JsShr(a: int, k: nat): int { ToUint32(a) / Pow2(k) }

  /** `a ^ b` */
  function JsXor(a: int, b: int): int { ToInt32(Xor(ToUint32(a), ToUint32(b))) }

  /** `a | b` */
  function JsOr(a: int, b: int): int { ToInt32(OrBits(ToUint32(a), ToUint32(b), 32)) }

  /** `a & b` */
  function JsAnd(a: int, b: int): int { ToInt32(AndBits(ToUint32(a), ToUint32(b), 32)) }

  lemma WordOps(a: word, k: nat)
    ensures JsShr(JsShl(a, k), 0) == ShiftLeft(a, k)
    ensures JsShr(a, k) == ShiftRight(a, k)
  {
    ShiftPattern(a, k);
  }

  lemma ShiftPattern(a: int, k: nat)
    ensures JsShr(JsShl(a, k), 0) == ShiftLeft(ToUint32(a), k)
  {
  }

  lemma XorWord(a: word, b: word)
    ensures JsShr(JsXor(a, b), 0) == Xor(a, b)
    ensures JsShr(JsXor(a, JsShr(b, 0)), 0) == Xor(a, b)
  {
    hide Xor;
    assert ToUint32(a) == a && ToUint32(b) == b && Pow2(0) == 1;
  }

  /** `b << 24 >> 24` is the byte as a signed number, whose 32-bit pattern is its signed word. */
  lemma SignedByte(b: byte)
    ensures JsSar(JsShl(b, 24), 24) == if b < 128 then b else b - 256
    ensures ToUint32(JsSar(JsShl(b, 24), 24)) == SignedWord(b)
  {
    assert Pow2(8) == 256 && Pow2(16) == 256 * Pow2(8) && Pow2(24) == 256 * Pow2(16);
    assert ToUint32(b) == b;
  }

  /** `data[at] | data[at + 1] << 8`. The default for a byte out of range is never taken. */
  function Get16(data: bytes, at: nat): int
    requires at + 1 < |data|
  {
    JsOr(data[at], JsShl(data[at + 1], 8))
  }

  lemma Get16IsHalf(data: bytes, at: nat)
    requires at + 1 < |data|
    ensures Get16(data, at) == Half(data[at], data[at + 1])
  {
    hide OrBits, ClearBelow, JsShl, Pow2;
    var lo: int, hi: int := data[at], data[at + 1];
    HighByte(hi);
    Pow2Of32();
    OrIsSum(lo, 256 * hi, 8, 32);
    assert ToUint32(lo) == lo && ToUint32(256 * hi) == 256 * hi;
  }

  lemma HighByte(hi: byte)
    ensures Pow2(8) == 256 && JsShl(hi, 8) == 256 * hi && ClearBelow(256 * hi, 8)
  {
    assert Pow2(8) == 256 && ToUint32(hi) == hi;
    ShiftedIsClear(hi, 8);
    assert hi * Pow2(8) == 256 * hi;
  }

  /** `length & 3` and `length >> 2` split the length into fours. */
  lemma LengthSplit(length: nat)
    requires length < TWO_31
    ensures JsAnd(length, 3) == length % 4 && JsSar(length, 2) == length / 4
  {
    assert ToUint32(length) == length && ToUint32(3) == 3 && Pow2(2) == 4;
    AndOfThree(length, 32);
  }

  /** The loop of the source, over JavaScript numbers. Its steps below promise that the sums they form are
      exact; every read lies inside the data. */
  method SuperFastHash(data: bytes) returns (hash: int)
    requires |data| < TWO_31
    ensures hash == Hash(data)
  {
    hide ShiftLeft, ShiftRight, Xor, Add, JsShl, JsShr, JsSar, JsXor, JsAnd, Tail, Mix, Avalanche;
    var length: int := |data|;
    if length <= 0 {
      return 0;
    }
    hash := JsShr(length, 0);
    ShrZero(length);
    LengthSplit(length);
    var remainder := JsAnd(length, 3);
    length := JsSar(length, 2);
    var offset := 0;
    while length > 0
      invariant 0 <= length && offset + 4 * length + remainder == |data| && 0 <= remainder < 4
      invariant 0 <= hash < TWO_32
      invariant Absorb(hash, data[offset..]) == Absorb(|data|, data)
      decreases length
    {
      assert offset + 3 < |data|;
      ghost var rest := data[offset..];
      assert data[offset + 4..] == rest[4..];
      hash := MixStep(hash, data, offset);
      offset := offset + 4;
      length := length - 1;
    }
    hash := TailStep(hash, data, offset, remainder);
    hash := FinalSteps(hash);
  }

  lemma ShrZero(n: int)
    requires 0 <= n < TWO_32
    ensures JsShr(n, 0) == n
  {
    assert Pow2(0) == 1;
  }

  lemma AddWord(a: word, n: int)
    requires -TWO_32 < n < TWO_32
    ensures Exact(a + n) && JsShr(a + n, 0) == Add(a, ToUint32(n))
  {
    assert Pow2(0) == 1;
  }

  lemma AddPlain(a: word, b: word)
    ensures Exact(a + b) && JsShr(a + b, 0) == Add(a, b) && ToUint32(b) == b
  {
    assert Pow2(0) == 1;
  }

  /** `hash ^= hash << k` */
  method XorShift(h: word, k: nat) returns (hash: word)
    ensures hash == Xor(h, ShiftLeft(h, k))
  {
    WordOps(h, k);
    XorWord(h, ShiftLeft(h, k));
    hash := JsShr(JsXor(h, JsShr(JsShl(h, k), 0)), 0);
  }

  /** `hash += hash >>> k` */
  method AddShift(h: word, k: nat) returns (hash: word)
    ensures hash == Add(h, ShiftRight(h, k)) && Exact(h + JsShr(h, k))
  {
    WordOps(h, k);
    AddPlain(h, ShiftRight(h, k));
    hash := JsShr(h + JsShr(h, k), 0);
  }

  /** One pass of the loop body. */
  method MixStep(h: word, data: bytes, offset: nat) returns (hash: word)
    requires offset + 4 <= |data|
    ensures hash == Mix(h, data[offset], data[offset + 1], data[offset + 2], data[offset + 3])
    ensures Exact(h + Get16(data, offset))
  {
    hide ShiftLeft, ShiftRight, Xor, Add, JsShl, JsShr, JsSar, JsXor, ToUint32, Get16;
    Get16IsHalf(data, offset);
    Get16IsHalf(data, offset + 2);
    var g, k := Get16(data, offset), Get16(data, offset + 2);
    AddPlain(h, g);
    var h1: int := JsShr(h + g, 0);
    WordOps(k, 11);
    XorWord(ShiftLeft(k, 11), h1);
    var tmp := JsShr(JsXor(JsShr(JsShl(k, 11), 0), h1), 0);
    WordOps(h1, 16);
    XorWord(ShiftLeft(h1, 16), tmp);
    var h2: int := JsShr(JsXor(JsShr(JsShl(h1, 16), 0), tmp), 0);
    hash := AddShift(h2, 11);
  }

  /** The one to three bytes left over. */
  method TailStep(h: word, data: bytes, offset: nat, remainder: nat) returns (hash: word)
    requires remainder < 4 && offset + remainder == |data|
    ensures hash == Tail(h, data[offset..])
    ensures remainder >= 2 ==> Exact(h + Get16(data, offset))
    ensures remainder == 1 ==> Exact(h + JsSar(JsShl(data[offset], 24), 24))
  {
    hide ShiftLeft, ShiftRight, Xor, Add, JsShl, JsShr, JsSar, JsXor, ToUint32, Get16;
    if remainder >= 2 {
      Get16IsHalf(data, offset);
    }
    if remainder == 3 {
      var g := Get16(data, offset);
      AddPlain(h, g);
      hash := JsShr(h + g, 0);
      hash := XorShift(hash, 16);
      SignedByte(data[offset + 2]);
      var signed := JsSar(JsShl(data[offset + 2], 24), 24);
      ShiftPattern(signed, 18);
      XorWord(hash, ShiftLeft(SignedWord(data[offset + 2]), 18));
      hash := JsShr(JsXor(hash, JsShr(JsShl(signed, 18), 0)), 0);
      hash := AddShift(hash, 11);
    } else if remainder == 2 {
      var g := Get16(data, offset);
      AddPlain(h, g);
      hash := JsShr(h + g, 0);
      hash := XorShift(hash, 11);
      hash := AddShift(hash, 17);
    } else if remainder == 1 {
      SignedByte(data[offset]);
      var signed := JsSar(JsShl(data[offset], 24), 24);
      AddWord(h, signed);
      hash := JsShr(h + signed, 0);
      hash := XorShift(hash, 10);
      hash := AddShift(hash, 1);
    } else {
      hash := h;
    }
  }

  method FinalSteps(h: word) returns (hash: word)
    ensures hash == Avalanche(h)
  {
    hide ShiftLeft, ShiftRight, Xor, Add;
    hash := XorShift(h, 3);
    hash := AddShift(hash, 5);
    hash := XorShift(hash, 4);
    hash := AddShift(hash, 17);
    hash := XorShift(hash, 10);
    hash := AddShift(hash, 6);
  }
}
