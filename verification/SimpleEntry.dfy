/** A Simple Cache entry file, read from both ends, the layout it encodes, and what is checked of its key and
    streams. */
module SimpleEntry {
  import opened Outcomes
  import opened Bytes

  const SIMPLE_INITIAL_MAGIC: nat := 0xfcfb6d1ba7725c30
  const SIMPLE_FINAL_MAGIC: nat := 0xf4fa6f45970d41d8
  const SIMPLE_HEADER_BYTES: nat := 24
  const SIMPLE_EOF_BYTES: nat := 24
  const SIMPLE_KEY_SHA256_BYTES: nat := 32

  /** The functions of the byte contents this model does not open: CRC-32, SuperFastHash, the
      SHA-1 entry hash in hex, and UTF-8 text. */
  datatype Digests = Digests(
    crc32: bytes -> nat, keyHash: bytes -> nat, entryHash: bytes -> string, text: bytes -> Option<string>)

  datatype Stream = Stream(size: nat, data: bytes, declaredCrc32: Option<nat>, crc32Valid: Option<bool>)

  datatype Entry = Entry(
    version: nat, key: bytes, keyText: Option<string>, keyLength: nat, headerKeyHash: nat, keyHashValid: bool,
    keySha256: Option<bytes>, stream0: Stream, stream1: Stream, entryHashFromKey: string)

  datatype Failure = NotSimpleMagic | Truncated | BadStream0Eof | BadStream1Eof | InconsistentLayout

  datatype Eof = Eof(flags: nat, crc32: nat, streamSize: nat)

  predicate HasCrc32(flags: nat) { flags % 2 == 1 }

  predicate HasKeySha256(flags: nat) { flags / 2 % 2 == 1 }

  function ParseEof(b: bytes, offset: int): Option<Eof> {
    if offset < 0 || offset + SIMPLE_EOF_BYTES > |b| then None
    else if ReadUint(b, offset, 8) != Some(SIMPLE_FINAL_MAGIC) then None
    else Some(Eof(FromLe(b[offset + 8..offset + 12]), FromLe(b[offset + 12..offset + 16]), FromLe(b[offset + 16..offset + 20])))
  }

  function StreamOf(d: Digests, flags: nat, crc32: nat, data: bytes): Stream {
    Stream(|data|, data, if HasCrc32(flags) then Some(crc32) else None,
           if HasCrc32(flags) then Some(d.crc32(data) == crc32) else None)
  }

  function ShaLength(flags: nat): nat {
    if HasKeySha256(flags) then SIMPLE_KEY_SHA256_BYTES else 0
  }

  function ParseSimpleEntryFile(d: Digests, b: bytes): Result<Entry, Failure> {
    if |b| < SIMPLE_HEADER_BYTES then Err(Truncated)
    else if ReadUint(b, 0, 8) != Some(SIMPLE_INITIAL_MAGIC) then Err(NotSimpleMagic)
    else
      var keyLength := FromLe(b[12..16]);
      var keyEnd := SIMPLE_HEADER_BYTES + keyLength;
      if keyEnd > |b| then Err(Truncated)
      else
        var key := b[SIMPLE_HEADER_BYTES..keyEnd];
        var eof0Offset := |b| - SIMPLE_EOF_BYTES;
        var eof0 := ParseEof(b, eof0Offset);
        if eof0.None? then Err(BadStream0Eof)
        else
          var stream0End := eof0Offset - ShaLength(eof0.value.flags);
          var stream0Start := stream0End - eof0.value.streamSize;
          var eof1Offset := stream0Start - SIMPLE_EOF_BYTES;
          if stream0Start < keyEnd || eof1Offset < keyEnd then Err(InconsistentLayout)
          else
            var eof1 := ParseEof(b, eof1Offset);
            if eof1.None? then Err(BadStream1Eof)
            else
              Ok(Entry(
                   FromLe(b[8..12]), key, d.text(key), keyLength, FromLe(b[16..20]), d.keyHash(key) == FromLe(b[16..20]),
                   if HasKeySha256(eof0.value.flags) then Some(b[stream0End..eof0Offset]) else None,
                   StreamOf(d, eof0.value.flags, eof0.value.crc32, b[stream0Start..stream0End]),
                   StreamOf(d, eof1.value.flags, eof1.value.crc32, b[keyEnd..eof1Offset]),
                   d.entryHash(key)))
  }

  // The layout, written down as an encoder.

  datatype RawEof = RawEof(flags: nat, crc32: nat, streamSize: nat, padding: bytes)

  /** Every byte of an entry file. */
  datatype RawEntry = RawEntry(
    version: nat, keyHash: nat, padding: bytes, key: bytes,
    stream1: bytes, eof1: RawEof, stream0: bytes, keySha256: bytes, eof0: RawEof)

  predicate WellFormedEof(e: RawEof) {
    e.flags < Pow256(4) && e.crc32 < Pow256(4) && e.streamSize < Pow256(4) && |e.padding| == 4
  }

  /** The stream 0 trailer states the stream's size and whether a key hash lies before it. The size
      in the stream 1 trailer is not constrained: stream 1 is what lies between. */
  predicate WellFormed(r: RawEntry) {
    && r.version < Pow256(4) && r.keyHash < Pow256(4) && |r.padding| == 4 && |r.key| < Pow256(4)
    && WellFormedEof(r.eof0) && WellFormedEof(r.eof1)
    && r.eof0.streamSize == |r.stream0| && |r.keySha256| == ShaLength(r.eof0.flags)
  }

  function EncodeHeader(r: RawEntry): bytes {
    Le(SIMPLE_INITIAL_MAGIC, 8) + Le(r.version, 4) + Le(|r.key|, 4) + Le(r.keyHash, 4) + r.padding
  }

  function EncodeEof(e: RawEof): bytes {
    Le(SIMPLE_FINAL_MAGIC, 8) + Le(e.flags, 4) + Le(e.crc32, 4) + Le(e.streamSize, 4) + e.padding
  }

  function Encode(r: RawEntry): bytes {
    EncodeHeader(r) + r.key + r.stream1 + EncodeEof(r.eof1) + r.stream0 + r.keySha256 + EncodeEof(r.eof0)
  }

  /** What the parser reports of an entry file. */
  function View(d: Digests, r: RawEntry): Entry {
    Entry(r.version, r.key, d.text(r.key), |r.key|, r.keyHash, d.keyHash(r.key) == r.keyHash,
          if HasKeySha256(r.eof0.flags) then Some(r.keySha256) else None,
          StreamOf(d, r.eof0.flags, r.eof0.crc32, r.stream0), StreamOf(d, r.eof1.flags, r.eof1.crc32, r.stream1),
          d.entryHash(r.key))
  }

  /** A trailer of 24 bytes: its fields are where the parser reads them, and nowhere else is read. */
  lemma EofLayout(e: RawEof)
    ensures var b := EncodeEof(e);
      && |b| == 20 + |e.padding| && b[0..8] == Le(SIMPLE_FINAL_MAGIC, 8) && b[8..12] == Le(e.flags, 4)
      && b[12..16] == Le(e.crc32, 4) && b[16..20] == Le(e.streamSize, 4) && b[20..] == e.padding
  {
  }

  lemma HeaderLayout(r: RawEntry)
    ensures var b := EncodeHeader(r);
      && |b| == 20 + |r.padding| && b[0..8] == Le(SIMPLE_INITIAL_MAGIC, 8) && b[8..12] == Le(r.version, 4)
      && b[12..16] == Le(|r.key|, 4) && b[16..20] == Le(r.keyHash, 4) && b[20..] == r.padding
  {
  }

  lemma ParsesEof(b: bytes, offset: nat, e: RawEof)
    requires WellFormedEof(e) && offset + SIMPLE_EOF_BYTES <= |b| && b[offset..offset + SIMPLE_EOF_BYTES] == EncodeEof(e)
    ensures ParseEof(b, offset) == Some(Eof(e.flags, e.crc32, e.streamSize))
  {
    hide Le, FromLe, Pow256, EncodeEof;
    EofLayout(e);
    Widths();
    var part := EncodeEof(e);
    SubSlice(b, offset, part, 0, 8);
    SubSlice(b, offset, part, 8, 12);
    SubSlice(b, offset, part, 12, 16);
    SubSlice(b, offset, part, 16, 20);
    LeRoundTrip(SIMPLE_FINAL_MAGIC, 8);
    LeRoundTrip(e.flags, 4);
    LeRoundTrip(e.crc32, 4);
    LeRoundTrip(e.streamSize, 4);
  }

  /** The trailer found at an offset. */
  function RawEofAt(b: bytes, offset: nat): RawEof
    requires offset + SIMPLE_EOF_BYTES <= |b|
  {
    RawEof(FromLe(b[offset + 8..offset + 12]), FromLe(b[offset + 12..offset + 16]), FromLe(b[offset + 16..offset + 20]),
           b[offset + 20..offset + 24])
  }

  lemma EncodesEofBack(b: bytes, offset: nat)
    requires offset + SIMPLE_EOF_BYTES <= |b| && ParseEof(b, offset).Some?
    ensures WellFormedEof(RawEofAt(b, offset))
    ensures EncodeEof(RawEofAt(b, offset)) == b[offset..offset + SIMPLE_EOF_BYTES]
  {
    hide Le, FromLe, Pow256;
    FromLeRoundTrip(b[offset..offset + 8]);
    FromLeRoundTrip(b[offset + 8..offset + 12]);
    FromLeRoundTrip(b[offset + 12..offset + 16]);
    FromLeRoundTrip(b[offset + 16..offset + 20]);
  }

  /** Where each part of an encoded entry starts. */
  lemma EntryLayout(h: bytes, key: bytes, s1: bytes, e1: bytes, s0: bytes, sha: bytes, e0: bytes)
    ensures var b := h + key + s1 + e1 + s0 + sha + e0;
      var k, a, c, s, z := |h|, |h| + |key|, |h| + |key| + |s1|, |h| + |key| + |s1| + |e1|, |h| + |key| + |s1| + |e1| + |s0|;
      && |b| == z + |sha| + |e0| && b[0..k] == h && b[k..a] == key && b[a..c] == s1 && b[c..s] == e1 && b[s..z] == s0
      && b[z..z + |sha|] == sha && b[z + |sha|..] == e0
  {
  }

  /** The parser returns what was encoded. */
  lemma ParsesEncoded(d: Digests, r: RawEntry)
    requires WellFormed(r)
    ensures ParseSimpleEntryFile(d, Encode(r)) == Ok(View(d, r))
  {
    hide Le, FromLe, Pow256, EncodeEof, EncodeHeader, ParseEof, WellFormedEof, StreamOf;
    var b := Encode(r);
    HeaderLayout(r);
    EofLayout(r.eof0);
    EofLayout(r.eof1);
    assert |r.eof0.padding| == 4 && |r.eof1.padding| == 4 by { EofPadding(r.eof0); EofPadding(r.eof1); }
    EntryLayout(EncodeHeader(r), r.key, r.stream1, EncodeEof(r.eof1), r.stream0, r.keySha256, EncodeEof(r.eof0));
    Widths();
    SubSlice(b, 0, EncodeHeader(r), 0, 8);
    SubSlice(b, 0, EncodeHeader(r), 8, 12);
    SubSlice(b, 0, EncodeHeader(r), 12, 16);
    SubSlice(b, 0, EncodeHeader(r), 16, 20);
    LeRoundTrip(SIMPLE_INITIAL_MAGIC, 8);
    LeRoundTrip(r.version, 4);
    LeRoundTrip(|r.key|, 4);
    LeRoundTrip(r.keyHash, 4);
    ParsesEof(b, |b| - SIMPLE_EOF_BYTES, r.eof0);
    ParsesEof(b, SIMPLE_HEADER_BYTES + |r.key| + |r.stream1|, r.eof1);
  }

  lemma EofPadding(e: RawEof)
    requires WellFormedEof(e)
    ensures |e.padding| == 4
  {
  }

  /** Where the parser cuts an accepted file. */
  datatype Cuts = Cuts(keyEnd: int, trailer1: int, start0: int, sha: int, end: int)

  function CutsOf(b: bytes): Cuts
    requires |b| >= SIMPLE_HEADER_BYTES
  {
    var end := |b| - SIMPLE_EOF_BYTES;
    var eof0 := RawEofAt(b, end);
    var sha := end - ShaLength(eof0.flags);
    Cuts(SIMPLE_HEADER_BYTES + FromLe(b[12..16]), sha - eof0.streamSize - SIMPLE_EOF_BYTES, sha - eof0.streamSize, sha, end)
  }

  predicate Ordered(b: bytes, c: Cuts) {
    SIMPLE_HEADER_BYTES <= c.keyEnd <= c.trailer1 && c.trailer1 + SIMPLE_EOF_BYTES == c.start0 <= c.sha <= c.end
    && c.end + SIMPLE_EOF_BYTES == |b|
  }

  /** The cuts of an accepted file are in order, with a trailer at each of its two places. */
  lemma CutsAreOrdered(b: bytes)
    requires ParseSimpleEntryFile(AnyDigests(), b).Ok?
    ensures |b| >= SIMPLE_HEADER_BYTES && ReadUint(b, 0, 8) == Some(SIMPLE_INITIAL_MAGIC)
    ensures var c := CutsOf(b); Ordered(b, c) && ParseEof(b, c.trailer1).Some? && ParseEof(b, c.end).Some?
  {
    hide FromLe, StreamOf, ReadUint, HasKeySha256, HasCrc32;
  }

  /** The bytes of a file cut there. */
  function RawOf(b: bytes): RawEntry
    requires ParseSimpleEntryFile(AnyDigests(), b).Ok?
  {
    CutsAreOrdered(b);
    var c := CutsOf(b);
    RawEntry(FromLe(b[8..12]), FromLe(b[16..20]), b[20..24], b[SIMPLE_HEADER_BYTES..c.keyEnd],
             b[c.keyEnd..c.trailer1], RawEofAt(b, c.trailer1), b[c.start0..c.sha], b[c.sha..c.end], RawEofAt(b, c.end))
  }

  /** Acceptance does not depend on the digests. */
  function AnyDigests(): Digests {
    Digests(b => 0, b => 0, b => "", b => None)
  }

  lemma AcceptanceIgnoresDigests(d: Digests, e: Digests, b: bytes)
    ensures ParseSimpleEntryFile(d, b).Ok? <==> ParseSimpleEntryFile(e, b).Ok?
  {
  }

  lemma HeaderBack(b: bytes, r: RawEntry)
    requires |b| >= SIMPLE_HEADER_BYTES && ReadUint(b, 0, 8) == Some(SIMPLE_INITIAL_MAGIC)
    requires r.version == FromLe(b[8..12]) && |r.key| == FromLe(b[12..16]) && r.keyHash == FromLe(b[16..20])
    requires r.padding == b[20..24]
    ensures EncodeHeader(r) == b[0..24]
    ensures r.version < Pow256(4) && |r.key| < Pow256(4) && r.keyHash < Pow256(4)
  {
    hide Le, FromLe, Pow256;
    FromLeRoundTrip(b[0..8]);
    FromLeRoundTrip(b[8..12]);
    FromLeRoundTrip(b[12..16]);
    FromLeRoundTrip(b[16..20]);
  }

  /** The cuts cover the file: the parts joined are the whole. */
  lemma PartsCover(b: bytes, k: nat, a: nat, c: nat, s: nat, z: nat, e: nat)
    requires k <= a <= c <= s <= z <= e <= |b|
    ensures b == b[0..k] + b[k..a] + b[a..c] + b[c..s] + b[s..z] + b[z..e] + b[e..|b|]
  {
  }

  /** An accepted file is header, key, stream 1, trailer, stream 0, optional key hash, trailer, with
      no overlap and no gap: its parts are well formed and encode to the very same bytes. */
  lemma AcceptedIsEncoded(b: bytes)
    requires ParseSimpleEntryFile(AnyDigests(), b).Ok?
    ensures WellFormed(RawOf(b)) && Encode(RawOf(b)) == b
  {
    hide Le, FromLe, Pow256, EncodeEof, EncodeHeader, ReadUint, ParseEof, RawEofAt, ParseSimpleEntryFile, WellFormedEof;
    CutsAreOrdered(b);
    var c := CutsOf(b);
    HeaderBack(b, RawOf(b));
    EncodesEofBack(b, c.trailer1);
    EncodesEofBack(b, c.end);
    PartsCover(b, SIMPLE_HEADER_BYTES, c.keyEnd, c.trailer1, c.start0, c.sha, c.end);
  }

  /** The parser accepts exactly the encodings of well-formed entries. */
  lemma AcceptsExactlyEncodings(d: Digests, b: bytes)
    ensures ParseSimpleEntryFile(d, b).Ok? <==> exists r :: WellFormed(r) && Encode(r) == b
  {
    AcceptanceIgnoresDigests(d, AnyDigests(), b);
    if ParseSimpleEntryFile(d, b).Ok? {
      AcceptedIsEncoded(b);
    }
    if r :| WellFormed(r) && Encode(r) == b {
      ParsesEncoded(d, r);
    }
  }

  // Re-encoding what the parser returned.

  /** What the parser drops from a trailer: the other flags, an undeclared checksum, the padding. */
  datatype DroppedEof = DroppedEof(flags: nat, crc32: nat, padding: bytes)

  /** What the parser drops from a file. */
  datatype Dropped = Dropped(padding: bytes, eof0: DroppedEof, eof1: DroppedEof, eof1KeyFlag: bool, eof1StreamSize: nat)

  function DropEof(e: RawEof): DroppedEof {
    DroppedEof(e.flags / 4, if HasCrc32(e.flags) then 0 else e.crc32, e.padding)
  }

  function DroppedOf(r: RawEntry): Dropped {
    Dropped(r.padding, DropEof(r.eof0), DropEof(r.eof1), HasKeySha256(r.eof1.flags), r.eof1.streamSize)
  }

  function RestoreEof(declared: Option<nat>, keyFlag: bool, size: nat, x: DroppedEof): RawEof {
    RawEof((if declared.Some? then 1 else 0) + (if keyFlag then 2 else 0) + 4 * x.flags,
           if declared.Some? then declared.value else x.crc32, size, x.padding)
  }

  /** An entry file rebuilt from the parser's result and the dropped bits. */
  function Restore(e: Entry, x: Dropped): RawEntry {
    RawEntry(e.version, e.headerKeyHash, x.padding, e.key,
             e.stream1.data, RestoreEof(e.stream1.declaredCrc32, x.eof1KeyFlag, x.eof1StreamSize, x.eof1),
             e.stream0.data, if e.keySha256.Some? then e.keySha256.value else [],
             RestoreEof(e.stream0.declaredCrc32, e.keySha256.Some?, e.stream0.size, x.eof0))
  }

  lemma FlagBits(flags: nat)
    ensures flags == (if HasCrc32(flags) then 1 else 0) + (if HasKeySha256(flags) then 2 else 0) + 4 * (flags / 4)
  {
    assert flags / 4 == flags / 2 / 2;
  }

  /** Re-encoding a parsed entry gives the same bytes, up to the fields the parser ignores. */
  lemma ReencodesParsed(d: Digests, b: bytes)
    requires ParseSimpleEntryFile(d, b).Ok?
    ensures ParseSimpleEntryFile(AnyDigests(), b).Ok?
    ensures Encode(Restore(ParseSimpleEntryFile(d, b).value, DroppedOf(RawOf(b)))) == b
  {
    hide ParseSimpleEntryFile, RawOf, Encode;
    AcceptanceIgnoresDigests(d, AnyDigests(), b);
    AcceptedIsEncoded(b);
    var r := RawOf(b);
    ParsesEncoded(d, r);
    FlagBits(r.eof0.flags);
    FlagBits(r.eof1.flags);
    assert Restore(View(d, r), DroppedOf(r)) == r;
  }

  /** The first eight bytes of an entry file and of a trailer, least first. */
  lemma MagicBytes()
    ensures Le(SIMPLE_INITIAL_MAGIC, 8) == [0x30, 0x5C, 0x72, 0xA7, 0x1B, 0x6D, 0xFB, 0xFC]
    ensures Le(SIMPLE_FINAL_MAGIC, 8) == [0xD8, 0x41, 0x0D, 0x97, 0x45, 0x6F, 0xFA, 0xF4]
  {
    assert forall n: nat, k: nat :: k > 0 ==> Le(n, k) == [n % 256] + Le(n / 256, k - 1);
  }

  /** A stream has a checksum to be compared when its trailer says so, and is valid when they agree. */
  predicate Checked(d: Digests, flags: nat, s: Stream) {
    && s.size == |s.data| && (s.declaredCrc32.Some? <==> flags % 2 == 1)
    && s.crc32Valid == if s.declaredCrc32.None? then None else Some(d.crc32(s.data) == s.declaredCrc32.value)
  }

  /** What the parser says of a key and of the two streams is what the digests of their bytes say. */
  lemma ParsedIsChecked(d: Digests, b: bytes)
    requires ParseSimpleEntryFile(d, b).Ok?
    ensures ParseSimpleEntryFile(AnyDigests(), b).Ok?
    ensures var e := ParseSimpleEntryFile(d, b).value;
      && Checked(d, RawOf(b).eof0.flags, e.stream0) && Checked(d, RawOf(b).eof1.flags, e.stream1)
      && (e.keyHashValid <==> d.keyHash(e.key) == e.headerKeyHash)
      && e.keyLength == |e.key| && e.keyText == d.text(e.key) && e.entryHashFromKey == d.entryHash(e.key)
      && (e.keySha256.Some? <==> RawOf(b).eof0.flags / 2 % 2 == 1)
  {
    hide ParseSimpleEntryFile, RawOf, Encode;
    AcceptanceIgnoresDigests(d, AnyDigests(), b);
    AcceptedIsEncoded(b);
    ParsesEncoded(d, RawOf(b));
  }

  /** Two entries that encode to the same bytes are the same entry: the layout is unambiguous. */
  lemma EncodingIsInjective(r: RawEntry, q: RawEntry)
    requires WellFormed(r) && WellFormed(q) && Encode(r) == Encode(q)
    ensures r == q
  {
    RawOfEncoded(r);
    RawOfEncoded(q);
  }

  lemma RawEofBack(b: bytes, offset: nat, e: RawEof)
    requires WellFormedEof(e) && offset + SIMPLE_EOF_BYTES <= |b| && b[offset..offset + SIMPLE_EOF_BYTES] == EncodeEof(e)
    ensures RawEofAt(b, offset) == e
  {
    hide Le, FromLe, Pow256, EncodeEof;
    EofLayout(e);
    var part := EncodeEof(e);
    SubSlice(b, offset, part, 8, 12);
    SubSlice(b, offset, part, 12, 16);
    SubSlice(b, offset, part, 16, 20);
    SubSlice(b, offset, part, 20, 24);
    LeRoundTrip(e.flags, 4);
    LeRoundTrip(e.crc32, 4);
    LeRoundTrip(e.streamSize, 4);
  }

  lemma RawOfEncoded(r: RawEntry)
    requires WellFormed(r)
    ensures ParseSimpleEntryFile(AnyDigests(), Encode(r)).Ok?
    ensures RawOf(Encode(r)) == r
  {
    hide Le, FromLe, Pow256, EncodeEof, EncodeHeader, ParseEof, WellFormedEof, ParseSimpleEntryFile, RawEofAt;
    var b := Encode(r);
    ParsesEncoded(AnyDigests(), r);
    HeaderLayout(r);
    EofLayout(r.eof0);
    EofLayout(r.eof1);
    EofPadding(r.eof0);
    EofPadding(r.eof1);
    EntryLayout(EncodeHeader(r), r.key, r.stream1, EncodeEof(r.eof1), r.stream0, r.keySha256, EncodeEof(r.eof0));
    SubSlice(b, 0, EncodeHeader(r), 8, 12);
    SubSlice(b, 0, EncodeHeader(r), 12, 16);
    SubSlice(b, 0, EncodeHeader(r), 16, 20);
    SubSlice(b, 0, EncodeHeader(r), 20, 24);
    LeRoundTrip(r.version, 4);
    LeRoundTrip(|r.key|, 4);
    LeRoundTrip(r.keyHash, 4);
    RawEofBack(b, |b| - SIMPLE_EOF_BYTES, r.eof0);
    RawEofBack(b, SIMPLE_HEADER_BYTES + |r.key| + |r.stream1|, r.eof1);
  }
}
