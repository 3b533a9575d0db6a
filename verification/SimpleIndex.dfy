/** The Simple Cache real index: a length- and CRC-prefixed pickle read with a moving cursor. */
module SimpleIndex {
  import opened Outcomes
  import opened Bytes
  import opened Hex
  import opened Calendar
  import opened ForensicTime

  const SIMPLE_INDEX_MAGIC: nat := 0x656e74657220796f
  const MAX_INDEX_ENTRIES: nat := 1_000_000
  const WINDOWS_EPOCH_OFFSET_MICROS: int := 11_644_473_600_000_000

  datatype IndexRecord = IndexRecord(
    lastUsedInternalMicros: int, lastUsedUtc: Option<string>, entrySizeBytes: nat, inMemoryData: nat)

  datatype Index = Index(
    version: nat, declaredEntryCount: nat, cacheSizeBytes: nat, writeReason: nat,
    cacheLastModifiedUtc: Option<string>, records: map<string, IndexRecord>)

  datatype Failure = Truncated | BadHeader | BadMagic | CrcMismatch | EntryCountOverflow | MalformedEntries

  /** Zero is Chromium's "never". */
  function InternalTimeUtc(internalMicros: int): Option<string> {
    if internalMicros == 0 then None else UtcFromUnixMicros(internalMicros - WINDOWS_EPOCH_OFFSET_MICROS)
  }

  /** A record unpacked: the size in whole 256-byte chunks, the hint in the two lowest bits. */
  function RecordOf(lastUsed: int, packed: nat): IndexRecord {
    IndexRecord(lastUsed, InternalTimeUtc(lastUsed), packed / 256 * 256, packed % 4)
  }

  /** `n` records from the cursor on, a later one replacing an earlier of the same hash. */
  function ReadEntries(p: bytes, cursor: nat, n: nat, records: map<string, IndexRecord>): Option<map<string, IndexRecord>>
    decreases n
  {
    if n == 0 then Some(records)
    else
      var (hash, lastUsed, packed) := (ReadUint(p, cursor, 8), ReadInt64(p, cursor + 8), ReadUint(p, cursor + 16, 8));
      if hash.None? || lastUsed.None? || packed.None? then None
      else ReadEntries(p, cursor + 24, n - 1, records[Hex16(hash.value) := RecordOf(lastUsed.value, packed.value)])
  }

  function IndexOfPayload(p: bytes): Result<Index, Failure> {
    var (magic, version, count) := (ReadUint(p, 0, 8), ReadUint(p, 8, 4), ReadUint(p, 12, 8));
    var (size, reason) := (ReadUint(p, 20, 8), ReadUint(p, 28, 4));
    if magic.None? || version.None? || count.None? || size.None? || reason.None? then Err(BadHeader)
    else if magic.value != SIMPLE_INDEX_MAGIC then Err(BadMagic)
    else if count.value > MAX_INDEX_ENTRIES then Err(EntryCountOverflow)
    else
      var (records, modified) := (ReadEntries(p, 32, count.value, map[]), ReadInt64(p, 32 + 24 * count.value));
      if records.None? || modified.None? then Err(MalformedEntries)
      else Ok(Index(version.value, count.value, size.value, reason.value, InternalTimeUtc(modified.value), records.value))
  }

  /** The payload named by the prefix, once its length and checksum hold. */
  function PayloadOf(crc32: bytes -> nat, b: bytes): Result<bytes, Failure> {
    if |b| < 8 then Err(Truncated)
    else
      var payloadSize := FromLe(b[0..4]);
      if 8 + payloadSize > |b| then Err(BadHeader)
      else if crc32(b[8..8 + payloadSize]) != FromLe(b[4..8]) then Err(CrcMismatch)
      else Ok(b[8..8 + payloadSize])
  }

  function IndexOf(crc32: bytes -> nat, b: bytes): Result<Index, Failure> {
    var payload := PayloadOf(crc32, b);
    if payload.Err? then Err(payload.error) else IndexOfPayload(payload.value)
  }

  /** The parser's own run: every read moves the cursor, and a read past the payload fails. On success the
      cursor stands after the records and the time, inside the payload. */
  method ParseSimpleIndex(crc32: bytes -> nat, b: bytes) returns (r: Result<Index, Failure>, ghost end: nat)
    ensures r == IndexOf(crc32, b)
    ensures r.Ok? ==> PayloadOf(crc32, b).Ok? && end <= |PayloadOf(crc32, b).value|
    ensures r.Ok? ==> end == 32 + 24 * r.value.declaredEntryCount + 8
  {
    hide RecordOf, InternalTimeUtc, Hex16, FromLe;
    if |b| < 8 {
      return Err(Truncated), 0;
    }
    var payloadSize := FromLe(b[0..4]);
    var declaredCrc := FromLe(b[4..8]);
    if 8 + payloadSize > |b| {
      return Err(BadHeader), 0;
    }
    var payload := b[8..8 + payloadSize];
    if crc32(payload) != declaredCrc {
      return Err(CrcMismatch), 0;
    }
    var cursor := 0;
    var magic := ReadUint(payload, cursor, 8);
    cursor := cursor + 8;
    var version := ReadUint(payload, cursor, 4);
    cursor := cursor + 4;
    var entryCount := ReadUint(payload, cursor, 8);
    cursor := cursor + 8;
    var cacheSize := ReadUint(payload, cursor, 8);
    cursor := cursor + 8;
    var writeReason := ReadUint(payload, cursor, 4);
    cursor := cursor + 4;
    if magic.None? || version.None? || entryCount.None? || cacheSize.None? || writeReason.None? {
      return Err(BadHeader), 0;
    }
    if magic.value != SIMPLE_INDEX_MAGIC {
      return Err(BadMagic), 0;
    }
    if entryCount.value > MAX_INDEX_ENTRIES {
      return Err(EntryCountOverflow), 0;
    }
    var records: map<string, IndexRecord> := map[];
    for index := 0 to entryCount.value
      invariant cursor == 32 + 24 * index && cursor <= |payload|
      invariant ReadEntries(payload, 32, entryCount.value, map[])
        == ReadEntries(payload, cursor, entryCount.value - index, records)
    {
      var hashKey := ReadUint(payload, cursor, 8);
      cursor := cursor + 8;
      var internalLastUsed := ReadInt64(payload, cursor);
      cursor := cursor + 8;
      var packed := ReadUint(payload, cursor, 8);
      cursor := cursor + 8;
      if hashKey.None? || internalLastUsed.None? || packed.None? {
        return Err(MalformedEntries), 0;
      }
      records := records[Hex16(hashKey.value) := RecordOf(internalLastUsed.value, packed.value)];
    }
    var cacheModified := ReadInt64(payload, cursor);
    cursor := cursor + 8;
    if cacheModified.None? {
      return Err(MalformedEntries), 0;
    }
    return Ok(Index(version.value, entryCount.value, cacheSize.value, writeReason.value,
                    InternalTimeUtc(cacheModified.value), records)), cursor;
  }

  // The pickle, written down as an encoder.

  datatype RawRecord = RawRecord(hash: nat, lastUsed: int, packed: nat)

  datatype Pickle = Pickle(
    version: nat, cacheSize: nat, writeReason: nat, entries: seq<RawRecord>, cacheModified: int, trailing: bytes)

  const TWO_63: int := 0x8000_0000_0000_0000
  const TWO_64: int := 0x1_0000_0000_0000_0000

  predicate IsInt64(n: int) { -TWO_63 <= n < TWO_63 }

  function Unsigned64(n: int): nat
    requires IsInt64(n)
  {
    if n < 0 then n + TWO_64 else n
  }

  predicate WellFormedRecord(e: RawRecord) {
    e.hash < Pow256(8) && IsInt64(e.lastUsed) && e.packed < Pow256(8)
  }

  predicate WellFormed(k: Pickle) {
    && k.version < Pow256(4) && k.cacheSize < Pow256(8) && k.writeReason < Pow256(4)
    && |k.entries| <= MAX_INDEX_ENTRIES && IsInt64(k.cacheModified)
    && forall i :: 0 <= i < |k.entries| ==> WellFormedRecord(k.entries[i])
  }

  function EncodeRecord(e: RawRecord): (b: bytes)
    requires WellFormedRecord(e)
    ensures |b| == 24
  {
    Le(e.hash, 8) + Le(Unsigned64(e.lastUsed), 8) + Le(e.packed, 8)
  }

  function EncodeRecords(es: seq<RawRecord>): (b: bytes)
    requires forall i :: 0 <= i < |es| ==> WellFormedRecord(es[i])
    ensures |b| == 24 * |es|
  {
    if es == [] then [] else EncodeRecord(es[0]) + EncodeRecords(es[1..])
  }

  function EncodeHeader(k: Pickle): (b: bytes)
    ensures |b| == 32
  {
    Le(SIMPLE_INDEX_MAGIC, 8) + Le(k.version, 4) + Le(|k.entries|, 8) + Le(k.cacheSize, 8) + Le(k.writeReason, 4)
  }

  function EncodePayload(k: Pickle): bytes
    requires WellFormed(k)
  {
    EncodeHeader(k) + EncodeRecords(k.entries) + (Le(Unsigned64(k.cacheModified), 8) + k.trailing)
  }

  /** The file: payload length, checksum, payload, and whatever follows. */
  function EncodeIndex(crc32: bytes -> nat, k: Pickle, rest: bytes): bytes
    requires WellFormed(k)
  {
    Le(|EncodePayload(k)|, 4) + Le(crc32(EncodePayload(k)), 4) + EncodePayload(k) + rest
  }

  /** The records added one by one. */
  function Collect(es: seq<RawRecord>, records: map<string, IndexRecord>): map<string, IndexRecord>
    decreases |es|
  {
    if es == [] then records
    else Collect(es[1..], records[Hex16(es[0].hash) := RecordOf(es[0].lastUsed, es[0].packed)])
  }

  lemma Signed64Back(n: int)
    requires IsInt64(n)
    ensures Unsigned64(n) < Pow256(8) && Signed64(Unsigned64(n)) == n
  {
    Widths();
  }

  lemma ReadsRecord(p: bytes, c: nat, e: RawRecord)
    requires WellFormedRecord(e) && c + 24 <= |p| && p[c..c + 24] == EncodeRecord(e)
    ensures ReadUint(p, c, 8) == Some(e.hash)
    ensures ReadInt64(p, c + 8) == Some(e.lastUsed)
    ensures ReadUint(p, c + 16, 8) == Some(e.packed)
  {
    hide Le, FromLe, Pow256, Unsigned64, Signed64;
    var part := EncodeRecord(e);
    assert part[0..8] == Le(e.hash, 8) && part[8..16] == Le(Unsigned64(e.lastUsed), 8) && part[16..24] == Le(e.packed, 8);
    SubSlice(p, c, part, 0, 8);
    SubSlice(p, c, part, 8, 16);
    SubSlice(p, c, part, 16, 24);
    Signed64Back(e.lastUsed);
    LeRoundTrip(e.hash, 8);
    LeRoundTrip(Unsigned64(e.lastUsed), 8);
    LeRoundTrip(e.packed, 8);
  }

  lemma {:induction false} ReadsRecords(p: bytes, c: nat, es: seq<RawRecord>, records: map<string, IndexRecord>)
    requires forall i :: 0 <= i < |es| ==> WellFormedRecord(es[i])
    requires c + 24 * |es| <= |p| && p[c..c + 24 * |es|] == EncodeRecords(es)
    ensures ReadEntries(p, c, |es|, records) == Some(Collect(es, records))
    decreases |es|
  {
    hide EncodeRecord, RecordOf, Hex16, WellFormedRecord, ReadUint, ReadInt64;
    if es != [] {
      var part := EncodeRecords(es);
      assert part[0..24] == EncodeRecord(es[0]) && part[24..24 * |es|] == EncodeRecords(es[1..]);
      SubSlice(p, c, part, 0, 24);
      SubSlice(p, c, part, 24, 24 * |es|);
      ReadsRecord(p, c, es[0]);
      assert c + 24 * |es| == c + 24 + 24 * |es[1..]|;
      ReadsRecords(p, c + 24, es[1..], records[Hex16(es[0].hash) := RecordOf(es[0].lastUsed, es[0].packed)]);
    }
  }

  lemma HeaderLayout(k: Pickle)
    ensures var b := EncodeHeader(k);
      && b[0..8] == Le(SIMPLE_INDEX_MAGIC, 8) && b[8..12] == Le(k.version, 4) && b[12..20] == Le(|k.entries|, 8)
      && b[20..28] == Le(k.cacheSize, 8) && b[28..32] == Le(k.writeReason, 4)
  {
  }

  lemma ReadsHeader(p: bytes, k: Pickle)
    requires WellFormed(k) && |p| >= 32 && p[0..32] == EncodeHeader(k)
    ensures ReadUint(p, 0, 8) == Some(SIMPLE_INDEX_MAGIC) && ReadUint(p, 8, 4) == Some(k.version)
    ensures ReadUint(p, 12, 8) == Some(|k.entries|) && ReadUint(p, 20, 8) == Some(k.cacheSize)
    ensures ReadUint(p, 28, 4) == Some(k.writeReason)
  {
    hide Le, FromLe, Pow256, EncodeHeader, WellFormedRecord;
    HeaderLayout(k);
    Widths();
    var h := EncodeHeader(k);
    SubSlice(p, 0, h, 0, 8);
    SubSlice(p, 0, h, 8, 12);
    SubSlice(p, 0, h, 12, 20);
    SubSlice(p, 0, h, 20, 28);
    SubSlice(p, 0, h, 28, 32);
    LeRoundTrip(SIMPLE_INDEX_MAGIC, 8);
    LeRoundTrip(k.version, 4);
    LeRoundTrip(|k.entries|, 8);
    LeRoundTrip(k.cacheSize, 8);
    LeRoundTrip(k.writeReason, 4);
  }

  function ViewOf(k: Pickle): Index {
    Index(k.version, |k.entries|, k.cacheSize, k.writeReason, InternalTimeUtc(k.cacheModified), Collect(k.entries, map[]))
  }

  lemma ParsesPayload(k: Pickle)
    requires WellFormed(k)
    ensures IndexOfPayload(EncodePayload(k)) == Ok(ViewOf(k))
  {
    hide Le, FromLe, Pow256, EncodeHeader, EncodeRecords, ReadUint, ReadEntries, Signed64, Unsigned64, Collect, InternalTimeUtc;
    var p, n := EncodePayload(k), |k.entries|;
    ReadsHeader(p, k);
    ReadsRecords(p, 32, k.entries, map[]);
    ReadsLast(p, 32 + 24 * n, k.cacheModified);
  }

  lemma ReadsLast(p: bytes, c: nat, n: int)
    requires IsInt64(n) && c + 8 <= |p| && p[c..c + 8] == Le(Unsigned64(n), 8)
    ensures ReadInt64(p, c) == Some(n)
  {
    Signed64Back(n);
    LeRoundTrip(Unsigned64(n), 8);
  }

  /** Parsing an encoded index returns its header fields and its records. */
  lemma ParsesEncoded(crc32: bytes -> nat, k: Pickle, rest: bytes)
    requires WellFormed(k) && |EncodePayload(k)| < Pow256(4) && crc32(EncodePayload(k)) < Pow256(4)
    ensures IndexOf(crc32, EncodeIndex(crc32, k, rest)) == Ok(ViewOf(k))
  {
    hide Le, FromLe, Pow256, EncodePayload, IndexOfPayload, ViewOf;
    var b, p := EncodeIndex(crc32, k, rest), EncodePayload(k);
    assert b[0..4] == Le(|p|, 4) && b[4..8] == Le(crc32(p), 4) && b[8..8 + |p|] == p;
    LeRoundTrip(|p|, 4);
    LeRoundTrip(crc32(p), 4);
    ParsesPayload(k);
  }

  /** With distinct hashes the records are exactly the map from each hash key to its own record. */
  lemma {:induction false} DistinctRecords(es: seq<RawRecord>, records: map<string, IndexRecord>)
    requires forall i :: 0 <= i < |es| ==> WellFormedRecord(es[i])
    requires forall i, j :: 0 <= i < j < |es| ==> es[i].hash != es[j].hash
    requires forall i :: 0 <= i < |es| ==> Hex16(es[i].hash) !in records
    ensures var m := Collect(es, records);
      && m.Keys == records.Keys + (set i | 0 <= i < |es| :: Hex16(es[i].hash))
      && (forall i :: 0 <= i < |es| ==> m[Hex16(es[i].hash)] == RecordOf(es[i].lastUsed, es[i].packed))
      && (forall s :: s in records ==> m[s] == records[s])
    decreases |es|
  {
    hide Hex16, RecordOf;
    if es != [] {
      var next := records[Hex16(es[0].hash) := RecordOf(es[0].lastUsed, es[0].packed)];
      Widths();
      forall i | 1 <= i < |es| ensures Hex16(es[i].hash) != Hex16(es[0].hash) {
        KeysAreInjective(es[i].hash, es[0].hash);
      }
      forall i | 0 <= i < |es[1..]| ensures Hex16(es[1..][i].hash) !in next {
        assert es[1..][i] == es[i + 1];
      }
      DistinctRecords(es[1..], next);
      var m := Collect(es, records);
      forall i | 0 <= i < |es| ensures Hex16(es[i].hash) in m && m[Hex16(es[i].hash)] == RecordOf(es[i].lastUsed, es[i].packed) {
        if i > 0 {
          assert es[1..][i - 1] == es[i];
        }
      }
      forall s ensures s in m.Keys <==> s in records.Keys + (set i | 0 <= i < |es| :: Hex16(es[i].hash)) {
        if s in m.Keys && s !in next {
          var i :| 0 <= i < |es[1..]| && Hex16(es[1..][i].hash) == s;
          assert es[1..][i] == es[i + 1];
        }
      }
    }
  }

  /** The round trip: an index of distinct hashes gives back exactly the map from each hash key to
      its record, sizes rounded down to 256-byte chunks and hints cut to two bits. */
  lemma RoundTrip(crc32: bytes -> nat, k: Pickle, rest: bytes)
    requires WellFormed(k) && |EncodePayload(k)| < Pow256(4) && crc32(EncodePayload(k)) < Pow256(4)
    requires forall i, j :: 0 <= i < j < |k.entries| ==> k.entries[i].hash != k.entries[j].hash
    ensures IndexOf(crc32, EncodeIndex(crc32, k, rest)) == Ok(ViewOf(k))
    ensures HoldsExactly(ViewOf(k).records, k.entries)
  {
    hide IndexOf, EncodeIndex, EncodePayload, RecordOf, Hex16;
    ParsesEncoded(crc32, k, rest);
    DistinctRecords(k.entries, map[]);
  }

  /** The map's keys are the hash keys of the entries, and each holds its own entry's record. */
  predicate HoldsExactly(records: map<string, IndexRecord>, es: seq<RawRecord>) {
    && records.Keys == (set i | 0 <= i < |es| :: Hex16(es[i].hash))
    && forall i :: 0 <= i < |es| ==>
         Hex16(es[i].hash) in records && records[Hex16(es[i].hash)] == RecordOf(es[i].lastUsed, es[i].packed)
  }

  /** The text of a Chromium time, which counts microseconds from 1601-01-01: none for 0, Chromium's "never",
      and none outside the Date range. */
  predicate SaysTime(internalMicros: int, text: Option<string>) {
    var t := DayFromYear(1601) * DAY_SECONDS * MICROS + internalMicros;
    if internalMicros == 0 || !InDateRange(t) then text == None else text == Some(InstantText(t))
  }

  lemma InternalTimeSays(internalMicros: int)
    ensures SaysTime(internalMicros, InternalTimeUtc(internalMicros))
  {
    hide DayFromYear, InstantText, UtcFromUnixMicros;
    EpochIs1601();
    UtcIsInstantText(internalMicros - WINDOWS_EPOCH_OFFSET_MICROS);
  }

  lemma EpochIs1601()
    ensures DayFromYear(1601) * DAY_SECONDS * MICROS == -WINDOWS_EPOCH_OFFSET_MICROS
  {
    assert DayFromYear(1601) == -134_774;
  }

  /** In that round trip a record packed as chunks of 256 bytes and hint bits gives its size in bytes and the two
      low bits, under the key of its hash; and each time field says its time. */
  lemma RecordSays(crc32: bytes -> nat, k: Pickle, rest: bytes, i: nat, chunks: nat, bits: nat)
    requires WellFormed(k) && |EncodePayload(k)| < Pow256(4) && crc32(EncodePayload(k)) < Pow256(4)
    requires forall i, j :: 0 <= i < j < |k.entries| ==> k.entries[i].hash != k.entries[j].hash
    requires i < |k.entries| && bits < 256 && k.entries[i].packed == 256 * chunks + bits
    ensures var r, key := IndexOf(crc32, EncodeIndex(crc32, k, rest)), Hex16(k.entries[i].hash);
      && r.Ok? && key in r.value.records
      && r.value.records[key].entrySizeBytes == 256 * chunks
      && (exists high :: bits == 4 * high + r.value.records[key].inMemoryData) && r.value.records[key].inMemoryData < 4
      && r.value.records[key].lastUsedInternalMicros == k.entries[i].lastUsed
      && SaysTime(k.entries[i].lastUsed, r.value.records[key].lastUsedUtc)
  {
    hide IndexOf, EncodeIndex, EncodePayload, Hex16, WellFormed, SaysTime, InternalTimeUtc;
    RoundTrip(crc32, k, rest);
    InternalTimeSays(k.entries[i].lastUsed);
    UnpackRecord(chunks, bits);
    assert bits == 4 * (bits / 4) + bits % 4;
  }

  lemma UnpackRecord(chunks: nat, bits: nat)
    requires bits < 256
    ensures (256 * chunks + bits) / 256 == chunks && (256 * chunks + bits) % 4 == bits % 4
  {
    assert 256 * chunks + bits == 4 * (64 * chunks) + bits;
  }

  /** The first eight bytes of an index, least first. */
  lemma IndexMagicBytes()
    ensures Le(SIMPLE_INDEX_MAGIC, 8) == [0x6F, 0x79, 0x20, 0x72, 0x65, 0x74, 0x6E, 0x65]
  {
    assert forall n: nat, k: nat :: k > 0 ==> Le(n, k) == [n % 256] + Le(n / 256, k - 1);
  }

  /** And the header fields are those that were written. */
  lemma HeaderSays(crc32: bytes -> nat, k: Pickle, rest: bytes)
    requires WellFormed(k) && |EncodePayload(k)| < Pow256(4) && crc32(EncodePayload(k)) < Pow256(4)
    ensures var r := IndexOf(crc32, EncodeIndex(crc32, k, rest));
      && r.Ok? && r.value.version == k.version && r.value.declaredEntryCount == |k.entries|
      && r.value.cacheSizeBytes == k.cacheSize && r.value.writeReason == k.writeReason
      && SaysTime(k.cacheModified, r.value.cacheLastModifiedUtc)
  {
    hide IndexOf, EncodeIndex, EncodePayload, WellFormed, SaysTime, InternalTimeUtc, Collect;
    ParsesEncoded(crc32, k, rest);
    InternalTimeSays(k.cacheModified);
  }

  // What is accepted was encoded.

  function RawRecordAt(p: bytes, c: nat): RawRecord
    requires c + 24 <= |p|
  {
    RawRecord(FromLe(p[c..c + 8]), Signed64(FromLe(p[c + 8..c + 16])), FromLe(p[c + 16..c + 24]))
  }

  function RawRecordsAt(p: bytes, c: nat, n: nat): (r: seq<RawRecord>)
    requires c + 24 * n <= |p|
    ensures |r| == n
    decreases n
  {
    if n == 0 then [] else [RawRecordAt(p, c)] + RawRecordsAt(p, c + 24, n - 1)
  }

  lemma RecordBack(p: bytes, c: nat)
    requires c + 24 <= |p|
    ensures WellFormedRecord(RawRecordAt(p, c)) && EncodeRecord(RawRecordAt(p, c)) == p[c..c + 24]
  {
    hide Le, FromLe, Pow256;
    Widths();
    FromLeRoundTrip(p[c..c + 8]);
    FromLeRoundTrip(p[c + 8..c + 16]);
    FromLeRoundTrip(p[c + 16..c + 24]);
    assert p[c..c + 8] + p[c + 8..c + 16] + p[c + 16..c + 24] == p[c..c + 24];
  }

  lemma {:induction false} RecordsBack(p: bytes, c: nat, n: nat, records: map<string, IndexRecord>)
    requires c <= |p| && ReadEntries(p, c, n, records).Some?
    ensures c + 24 * n <= |p|
    ensures var es := RawRecordsAt(p, c, n);
      && (forall i :: 0 <= i < |es| ==> WellFormedRecord(es[i])) && EncodeRecords(es) == p[c..c + 24 * n]
      && ReadEntries(p, c, n, records) == Some(Collect(es, records))
    decreases n
  {
    hide EncodeRecord, RecordOf, Hex16, WellFormedRecord, FromLe, Signed64;
    if n > 0 {
      var e := RawRecordAt(p, c);
      var next := records[Hex16(e.hash) := RecordOf(e.lastUsed, e.packed)];
      RecordBack(p, c);
      assert ReadEntries(p, c, n, records) == ReadEntries(p, c + 24, n - 1, next);
      RecordsBack(p, c + 24, n - 1, next);
      var es := RawRecordsAt(p, c, n);
      assert es[0] == e && es[1..] == RawRecordsAt(p, c + 24, n - 1);
      assert p[c..c + 24] + p[c + 24..c + 24 + 24 * (n - 1)] == p[c..c + 24 * n];
    }
  }

  /** The pickle of an accepted payload. */
  function PickleOf(p: bytes): Pickle
    requires IndexOfPayload(p).Ok?
  {
    var n := FromLe(p[12..20]);
    RecordsBack(p, 32, n, map[]);
    var end := 32 + 24 * n;
    Pickle(FromLe(p[8..12]), FromLe(p[20..28]), FromLe(p[28..32]), RawRecordsAt(p, 32, n),
           Signed64(FromLe(p[end..end + 8])), p[end + 8..])
  }

  lemma HeaderBack(p: bytes, k: Pickle)
    requires |p| >= 32 && FromLe(p[0..8]) == SIMPLE_INDEX_MAGIC && k.version == FromLe(p[8..12])
    requires |k.entries| == FromLe(p[12..20]) && k.cacheSize == FromLe(p[20..28]) && k.writeReason == FromLe(p[28..32])
    ensures k.version < Pow256(4) && k.cacheSize < Pow256(8) && k.writeReason < Pow256(4)
    ensures EncodeHeader(k) == p[0..32]
  {
    hide Le, FromLe, Pow256;
    FromLeRoundTrip(p[0..8]);
    FromLeRoundTrip(p[8..12]);
    FromLeRoundTrip(p[12..20]);
    FromLeRoundTrip(p[20..28]);
    FromLeRoundTrip(p[28..32]);
    assert p[0..8] + p[8..12] + p[12..20] + p[20..28] + p[28..32] == p[0..32];
  }

  lemma LastBack(p: bytes, c: nat)
    requires c + 8 <= |p|
    ensures IsInt64(Signed64(FromLe(p[c..c + 8]))) && Le(Unsigned64(Signed64(FromLe(p[c..c + 8]))), 8) == p[c..c + 8]
  {
    Widths();
    FromLeRoundTrip(p[c..c + 8]);
  }

  lemma PayloadBack(p: bytes)
    requires IndexOfPayload(p).Ok?
    ensures WellFormed(PickleOf(p)) && EncodePayload(PickleOf(p)) == p
  {
    hide Le, FromLe, Pow256, EncodeHeader, EncodeRecords, Signed64, Unsigned64, Collect, InternalTimeUtc, WellFormedRecord;
    var n := FromLe(p[12..20]);
    var end := 32 + 24 * n;
    RecordsBack(p, 32, n, map[]);
    HeaderBack(p, PickleOf(p));
    LastBack(p, end);
    assert p == p[0..32] + p[32..end] + (p[end..end + 8] + p[end + 8..]);
  }

  ghost predicate Encodes(crc32: bytes -> nat, k: Pickle, rest: bytes, b: bytes) {
    && WellFormed(k) && |EncodePayload(k)| < Pow256(4) && crc32(EncodePayload(k)) < Pow256(4)
    && EncodeIndex(crc32, k, rest) == b
  }

  /** An index is accepted exactly when it is the encoding of a well-formed pickle: so on success no
      read went past the payload, and every byte of it is accounted for. */
  lemma AcceptsExactlyEncodings(crc32: bytes -> nat, b: bytes)
    ensures IndexOf(crc32, b).Ok? <==> exists k, rest :: Encodes(crc32, k, rest, b)
  {
    hide EncodePayload, IndexOfPayload, PickleOf, WellFormed, Le, FromLe, Pow256, ViewOf;
    if IndexOf(crc32, b).Ok? {
      var p := PayloadOf(crc32, b).value;
      PayloadBack(p);
      FromLeRoundTrip(b[0..4]);
      FromLeRoundTrip(b[4..8]);
      var k, rest := PickleOf(p), b[8 + |p|..];
      assert b == b[0..4] + b[4..8] + b[8..8 + |p|] + b[8 + |p|..];
      assert Encodes(crc32, k, rest, b);
    }
    if k, rest :| Encodes(crc32, k, rest, b) {
      ParsesEncoded(crc32, k, rest);
    }
  }
}
