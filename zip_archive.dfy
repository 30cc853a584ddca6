/**
 * The byte layout of the ZIP archive the sketch exporter writes, as sections 4.3.7 (local file
 * header), 4.3.12 (central directory header) and 4.3.16 (end of central directory record) of
 * PKWARE's APPNOTE.TXT lay it out: every entry stored uncompressed, its local header and data
 * first, then the central directory, then the end record.
 */
module ZipArchive {
  import opened Wrappers
  import opened Seqs
  import opened ZipPaths
  import Crc32

  type Byte = Crc32.Byte
  type Bytes = seq<Byte>

  const Two16 := 0x1_0000
  const Two32 := 0x1_0000_0000

  /** `value >>> 0`: a non-negative number as an unsigned 32-bit value. */
  function Uint32(value: nat): (u: nat)
    ensures u < Two32
  {
    value % Two32
  }

  /** `256` to the power `n`. */
  function Power256(n: nat): (p: nat)
    ensures p >= 1
  {
    if n == 0 then 1 else 256 * Power256(n - 1)
  }

  /** The number the bytes stand for, least significant byte first. */
  function LittleEndian(bytes: Bytes): nat {
    if bytes == [] then 0 else bytes[0] + 256 * LittleEndian(bytes[1..])
  }

  /** The low `n` bytes of `value`, least significant first. */
  function LeBytes(value: nat, n: nat): (r: Bytes)
    ensures |r| == n
  {
    if n == 0 then [] else [value % 256] + LeBytes(value / 256, n - 1)
  }

  /**
   * `writeUint16LE`: `value & 0xFF`, then `(value >>> 8) & 0xFF`. Both operators first take
   * `value` modulo 2^32, which leaves its two low bytes as they are (`WritersTruncate`).
   */
  function WriteUint16LE(value: nat): (r: Bytes)
    ensures |r| == 2
  {
    LeBytes(value, 2)
  }

  /** `writeUint32LE`: the low byte, then the low bytes of `value >>> 8`, `>>> 16` and `>>> 24`. */
  function WriteUint32LE(value: nat): (r: Bytes)
    ensures |r| == 4
  {
    LeBytes(value, 4)
  }

  lemma {:induction false} MulAtLeast(d: nat, k: nat)
    requires k >= 1
    ensures d * k >= d
  {
  }

  /** Division by `d` recovers the quotient of `d * q + r` when `r < d`. */
  lemma {:induction false} DivOfSum(x: nat, d: nat, q: nat, r: nat)
    requires d > 0 && r < d && x == d * q + r
    ensures x / d == q && x % d == r
  {
    var q', r' := x / d, x % d;
    assert d * q' + r' == d * q + r;
    if q' > q {
      assert d * q' == d * q + d * (q' - q);
      MulAtLeast(d, q' - q);
      assert false;
    } else if q' < q {
      assert d * q == d * q' + d * (q - q');
      MulAtLeast(d, q - q');
      assert false;
    }
  }

  /** Taking the remainder modulo `256 * m` keeps the low byte and the remainder of the rest modulo `m`. */
  lemma {:induction false} ModOfProduct(v: nat, m: nat)
    requires m >= 1
    ensures v % (256 * m) == v % 256 + 256 * (v / 256 % m)
  {
    var q1, r1 := v / 256, v % 256;
    var q2, r2 := q1 / m, q1 % m;
    assert v == 256 * q1 + r1;
    assert q1 == m * q2 + r2;
    assert 256 * q1 == (256 * m) * q2 + 256 * r2;
    assert 256 * r2 + r1 < 256 * m by {
      assert r2 <= m - 1;
      assert 256 * r2 <= 256 * (m - 1);
    }
    DivOfSum(v, 256 * m, q2, 256 * r2 + r1);
  }

  /** The bytes `LeBytes` writes read back as the value modulo `256^n`. */
  lemma {:induction false} LittleEndianOfLeBytes(value: nat, n: nat)
    ensures LittleEndian(LeBytes(value, n)) == value % Power256(n)
    decreases n
  {
    if n == 0 {
      DivOfSum(value, 1, value, 0);
    } else {
      var r := LeBytes(value, n);
      assert r[1..] == LeBytes(value / 256, n - 1);
      LittleEndianOfLeBytes(value / 256, n - 1);
      ModOfProduct(value, Power256(n - 1));
    }
  }

  /** The low `n` bytes of `value` are those of `value` modulo `256^k`, for `n <= k`. */
  lemma {:induction false} LeBytesOfLow(value: nat, n: nat, k: nat)
    requires n <= k
    ensures LeBytes(value, n) == LeBytes(value % Power256(k), n)
    decreases n
  {
    if n > 0 {
      var m := Power256(k - 1);
      var low := value % Power256(k);
      ModOfProduct(value, m);
      assert low == value % 256 + 256 * (value / 256 % m);
      DivOfSum(low, 256, value / 256 % m, value % 256);
      LeBytesOfLow(value / 256, n - 1, k - 1);
    }
  }

  /** Taking `value >>> 0` first, as the JavaScript operators do, changes none of the bytes written. */
  lemma {:induction false} WritersTruncate(value: nat)
    ensures WriteUint16LE(Uint32(value)) == WriteUint16LE(value)
    ensures WriteUint32LE(Uint32(value)) == WriteUint32LE(value)
  {
    assert Power256(4) == Two32;
    LeBytesOfLow(value, 2, 4);
    LeBytesOfLow(value, 4, 4);
  }

  /** The two bytes `writeUint16LE` writes read back as the value modulo 2^16. */
  lemma {:induction false} ReadUint16(value: nat)
    ensures LittleEndian(WriteUint16LE(value)) == value % Two16
  {
    LittleEndianOfLeBytes(value, 2);
    assert Power256(2) == Two16;
  }

  /** The four bytes `writeUint32LE` writes read back as the value modulo 2^32. */
  lemma {:induction false} ReadUint32(value: nat)
    ensures LittleEndian(WriteUint32LE(value)) == value % Two32
  {
    LittleEndianOfLeBytes(value, 4);
    assert Power256(4) == Two32;
  }

  /** The modification date and time fields of a header, in the MS-DOS packing. */
  datatype DateTime = DateTime(date: nat, time: nat)

  /**
   * `getZipDateTime`: packs a clock reading (month counted from 0, as `getMonth` gives it) into
   * the date and time fields; the seconds are kept at two-second resolution.
   */
  function ZipDateTime(year: int, month: int, day: int, hours: int, minutes: int, seconds: int): (dt: DateTime)
    requires 1980 <= year < 2108 && 0 <= month < 12 && 1 <= day <= 31
    requires 0 <= hours < 24 && 0 <= minutes < 60 && 0 <= seconds < 60
    ensures dt.date < Two16 && dt.time < Two16
    ensures dt.date / 512 == year - 1980 && dt.date / 32 % 16 == month + 1 && dt.date % 32 == day
    ensures dt.time / 2048 == hours && dt.time / 32 % 64 == minutes && dt.time % 32 == seconds / 2
  {
    PackedFields(year - 1980, month + 1, day, 16);
    PackedFields(hours, minutes, seconds / 2, 64);
    DateTime((year - 1980) * 512 + (month + 1) * 32 + day, hours * 2048 + minutes * 32 + seconds / 2)
  }

  /** The three fields of `(a << 9 or 11) | (b << 5) | c` read back with divisions and remainders. */
  lemma {:induction false} PackedFields(a: nat, b: nat, c: nat, width: nat)
    requires width > 0 && b < width && c < 32
    ensures var x := a * (32 * width) + b * 32 + c;
      x / (32 * width) == a && x / 32 % width == b && x % 32 == c
  {
    var x := a * (32 * width) + b * 32 + c;
    assert b * 32 + c < 32 * width by {
      assert b * 32 <= (width - 1) * 32;
    }
    DivOfSum(x, 32 * width, a, b * 32 + c);
    assert x == 32 * (width * a + b) + c;
    DivOfSum(x, 32, width * a + b, c);
    DivOfSum(width * a + b, width, a, b);
  }

  /** A value already below the modulus is its own remainder. */
  lemma {:induction false} ModOfSmall(x: nat, m: nat)
    requires x < m
    ensures x % m == x
  {
    DivOfSum(x, m, 0, x);
  }

  /** An entry as the archive stores it: its encoded name and content, and the content's CRC-32. */
  datatype Entry = Entry(name: Bytes, content: Bytes, crc: nat, isDirectory: bool)

  /** The check every entry must pass: a non-empty name, and content unless it is a directory. */
  predicate Acceptable(f: FileSpec) {
    f.filename != [] && (f.content.Some? || f.isDirectory)
  }

  /** The CRC-32 of an entry's content, as the number the headers record. */
  function CrcOf(content: Bytes): (c: nat)
    ensures c < Two32
  {
    Crc32.Checksum(content) as int
  }

  /** What is stored for an accepted entry: a directory stores no content. */
  function EncodeEntry(f: FileSpec, encode: string -> Bytes): (e: Entry)
    requires Acceptable(f)
    ensures e.name == encode(f.filename) && e.isDirectory == f.isDirectory
    ensures e.content == (if f.isDirectory then [] else encode(f.content.value))
    ensures e.crc == CrcOf(e.content) && e.crc < Two32
  {
    var content := if f.isDirectory then [] else encode(f.content.value);
    Entry(encode(f.filename), content, CrcOf(content), f.isDirectory)
  }

  function EncodeAll(fs: seq<FileSpec>, encode: string -> Bytes): (es: seq<Entry>)
    requires forall k :: 0 <= k < |fs| ==> Acceptable(fs[k])
    ensures |es| == |fs|
    ensures forall k :: 0 <= k < |fs| ==> es[k] == EncodeEntry(fs[k], encode)
  {
    if fs == [] then [] else EncodeAll(fs[..|fs| - 1], encode) + [EncodeEntry(fs[|fs| - 1], encode)]
  }

  const LocalSignature: Bytes := [0x50, 0x4B, 0x03, 0x04]
  const CentralSignature: Bytes := [0x50, 0x4B, 0x01, 0x02]
  const EndSignature: Bytes := [0x50, 0x4B, 0x05, 0x06]
  /** Version 2.0, both as the version made by and as the version needed to extract. */
  const Version := 20
  /** The MS-DOS directory attribute, in the external attributes of a directory entry. */
  const DirectoryAttribute := 0x10

  /** The external file attributes of an entry: the directory bit for a directory, none otherwise. */
  function ExternalAttributes(isDirectory: bool): (attributes: nat)
    ensures attributes < Two32
    ensures attributes == 0 <==> !isDirectory
  {
    if isDirectory then DirectoryAttribute else 0
  }

  /** A local file header (section 4.3.7 of APPNOTE.TXT) for stored, uncompressed data. */
  function LocalHeader(name: Bytes, crc: nat, size: nat, dt: DateTime): (r: Bytes)
    ensures |r| == 30 + |name|
  {
    LocalSignature + WriteUint16LE(Version) + WriteUint16LE(0) + WriteUint16LE(0)
    + WriteUint16LE(dt.time) + WriteUint16LE(dt.date) + WriteUint32LE(crc)
    + WriteUint32LE(size) + WriteUint32LE(size) + WriteUint16LE(|name|) + WriteUint16LE(0)
    + name
  }

  /** A central directory file header (section 4.3.12 of APPNOTE.TXT). */
  function CentralHeader(name: Bytes, crc: nat, size: nat, isDirectory: bool, offset: nat, dt: DateTime): (r: Bytes)
    ensures |r| == 46 + |name|
  {
    CentralSignature + WriteUint16LE(Version) + WriteUint16LE(Version) + WriteUint16LE(0)
    + WriteUint16LE(0) + WriteUint16LE(dt.time) + WriteUint16LE(dt.date) + WriteUint32LE(crc)
    + WriteUint32LE(size) + WriteUint32LE(size) + WriteUint16LE(|name|) + WriteUint16LE(0)
    + WriteUint16LE(0) + WriteUint16LE(0) + WriteUint16LE(0)
    + WriteUint32LE(ExternalAttributes(isDirectory)) + WriteUint32LE(offset)
    + name
  }

  /** The end of central directory record (section 4.3.16 of APPNOTE.TXT), for one disk. */
  function EndRecord(count: nat, size: nat, offset: nat): (r: Bytes)
    ensures |r| == 22
  {
    EndSignature + WriteUint16LE(0) + WriteUint16LE(0) + WriteUint16LE(count)
    + WriteUint16LE(count) + WriteUint32LE(size) + WriteUint32LE(offset) + WriteUint16LE(0)
  }

  /** Where `LocalHeader` puts each field it writes. */
  lemma {:induction false} LocalHeaderLayout(name: Bytes, crc: nat, size: nat, dt: DateTime)
    ensures var r := LocalHeader(name, crc, size, dt);
      && r[..4] == LocalSignature
      && r[4..6] == WriteUint16LE(Version)
      && r[6..8] == WriteUint16LE(0) && r[8..10] == WriteUint16LE(0)
      && r[10..12] == WriteUint16LE(dt.time) && r[12..14] == WriteUint16LE(dt.date)
      && r[14..18] == WriteUint32LE(crc)
      && r[18..22] == WriteUint32LE(size) && r[22..26] == WriteUint32LE(size)
      && r[26..28] == WriteUint16LE(|name|) && r[28..30] == WriteUint16LE(0)
      && r[30..] == name && r[30..30 + |name|] == name
  {
  }

  /** What a reader finds in a local header: signature, flags, time, date, CRC, sizes, name length and name. */
  lemma {:induction false} LocalHeaderFields(name: Bytes, crc: nat, size: nat, dt: DateTime)
    ensures var r := LocalHeader(name, crc, size, dt);
      && r[..4] == LocalSignature
      && LittleEndian(r[4..6]) == Version
      && LittleEndian(r[6..8]) == 0 && LittleEndian(r[8..10]) == 0
      && LittleEndian(r[10..12]) == dt.time % Two16
      && LittleEndian(r[12..14]) == dt.date % Two16
      && LittleEndian(r[14..18]) == crc % Two32
      && LittleEndian(r[18..22]) == size % Two32
      && LittleEndian(r[22..26]) == size % Two32
      && LittleEndian(r[26..28]) == |name| % Two16
      && LittleEndian(r[28..30]) == 0
      && r[30..] == name
  {
    var r := LocalHeader(name, crc, size, dt);
    LocalHeaderLayout(name, crc, size, dt);
    ModOfSmall(Version, Two16);
    ReadBack16(r, 4, 6, Version);
    ReadBack16(r, 6, 8, 0);
    ReadBack16(r, 8, 10, 0);
    ReadBack16(r, 10, 12, dt.time);
    ReadBack16(r, 12, 14, dt.date);
    ReadBack32(r, 14, 18, crc);
    ReadBack32(r, 18, 22, size);
    ReadBack32(r, 22, 26, size);
    ReadBack16(r, 26, 28, |name|);
    ReadBack16(r, 28, 30, 0);
  }

  /** A 16-bit field written at `i` reads back as the value modulo 2^16. */
  lemma {:induction false} ReadBack16(r: Bytes, i: nat, j: nat, value: nat)
    requires i + 2 == j <= |r| && r[i..j] == WriteUint16LE(value)
    ensures LittleEndian(r[i..j]) == value % Two16
  {
    ReadUint16(value);
  }

  /** A 32-bit field written at `i` reads back as the value modulo 2^32. */
  lemma {:induction false} ReadBack32(r: Bytes, i: nat, j: nat, value: nat)
    requires i + 4 == j <= |r| && r[i..j] == WriteUint32LE(value)
    ensures LittleEndian(r[i..j]) == value % Two32
  {
    ReadUint32(value);
  }

  /** Where `CentralHeader` puts each field it writes. */
  lemma {:induction false} CentralHeaderLayout(name: Bytes, crc: nat, size: nat, isDirectory: bool, offset: nat, dt: DateTime)
    ensures var r := CentralHeader(name, crc, size, isDirectory, offset, dt);
      && r[..4] == CentralSignature
      && r[12..14] == WriteUint16LE(dt.time) && r[14..16] == WriteUint16LE(dt.date)
      && r[16..20] == WriteUint32LE(crc)
      && r[20..24] == WriteUint32LE(size) && r[24..28] == WriteUint32LE(size)
      && r[28..30] == WriteUint16LE(|name|)
      && r[38..42] == WriteUint32LE(ExternalAttributes(isDirectory))
      && r[42..46] == WriteUint32LE(offset)
      && r[46..] == name && r[46..46 + |name|] == name
  {
    CentralHeaderLayoutFront(name, crc, size, isDirectory, offset, dt);
    CentralHeaderLayoutBack(name, crc, size, isDirectory, offset, dt);
  }

  /** The fields a reader of the central directory needs: signature, local header offset, name. */
  lemma {:induction false} CentralHeaderKeyFields(name: Bytes, crc: nat, size: nat, isDirectory: bool, offset: nat, dt: DateTime)
    ensures var r := CentralHeader(name, crc, size, isDirectory, offset, dt);
      && r[..4] == CentralSignature && r[42..46] == WriteUint32LE(offset) && r[46..46 + |name|] == name
  {
    CentralHeaderLayoutFront(name, crc, size, isDirectory, offset, dt);
    CentralHeaderLayoutBack(name, crc, size, isDirectory, offset, dt);
  }

  lemma {:induction false} CentralHeaderLayoutFront(name: Bytes, crc: nat, size: nat, isDirectory: bool, offset: nat, dt: DateTime)
    ensures var r := CentralHeader(name, crc, size, isDirectory, offset, dt);
      && r[..4] == CentralSignature
      && r[12..14] == WriteUint16LE(dt.time) && r[14..16] == WriteUint16LE(dt.date)
      && r[16..20] == WriteUint32LE(crc)
      && r[20..24] == WriteUint32LE(size) && r[24..28] == WriteUint32LE(size)
  {
  }

  lemma {:induction false} CentralHeaderLayoutBack(name: Bytes, crc: nat, size: nat, isDirectory: bool, offset: nat, dt: DateTime)
    ensures var r := CentralHeader(name, crc, size, isDirectory, offset, dt);
      && r[28..30] == WriteUint16LE(|name|)
      && r[38..42] == WriteUint32LE(ExternalAttributes(isDirectory))
      && r[42..46] == WriteUint32LE(offset)
      && r[46..] == name && r[46..46 + |name|] == name
  {
  }

  /** What a reader finds in a central header, including the directory bit and the local header's offset. */
  lemma {:induction false} CentralHeaderFields(name: Bytes, crc: nat, size: nat, isDirectory: bool, offset: nat, dt: DateTime)
    ensures var r := CentralHeader(name, crc, size, isDirectory, offset, dt);
      && r[..4] == CentralSignature
      && LittleEndian(r[12..14]) == dt.time % Two16
      && LittleEndian(r[14..16]) == dt.date % Two16
      && LittleEndian(r[16..20]) == crc % Two32
      && LittleEndian(r[20..24]) == size % Two32
      && LittleEndian(r[24..28]) == size % Two32
      && LittleEndian(r[28..30]) == |name| % Two16
      && LittleEndian(r[38..42]) == (ExternalAttributes(isDirectory))
      && LittleEndian(r[42..46]) == offset % Two32
      && r[46..] == name
  {
    var r := CentralHeader(name, crc, size, isDirectory, offset, dt);
    CentralHeaderLayout(name, crc, size, isDirectory, offset, dt);
    ReadBack16(r, 12, 14, dt.time);
    ReadBack16(r, 14, 16, dt.date);
    ReadBack32(r, 16, 20, crc);
    ReadBack32(r, 20, 24, size);
    ReadBack32(r, 24, 28, size);
    ReadBack16(r, 28, 30, |name|);
    ReadBack32(r, 38, 42, ExternalAttributes(isDirectory));
    ModOfSmall(ExternalAttributes(isDirectory), Two32);
    ReadBack32(r, 42, 46, offset);
  }

  /** Where `EndRecord` puts each field it writes. */
  lemma {:induction false} EndRecordLayout(count: nat, size: nat, offset: nat)
    ensures var r := EndRecord(count, size, offset);
      && r[..4] == EndSignature
      && r[4..6] == WriteUint16LE(0) && r[6..8] == WriteUint16LE(0)
      && r[8..10] == WriteUint16LE(count) && r[10..12] == WriteUint16LE(count)
      && r[12..16] == WriteUint32LE(size) && r[16..20] == WriteUint32LE(offset)
      && r[20..22] == WriteUint16LE(0)
  {
    var r := EndRecord(count, size, offset);
    assert r[4..6] == WriteUint16LE(0) && r[6..8] == WriteUint16LE(0);
    assert r[8..10] == WriteUint16LE(count) && r[10..12] == WriteUint16LE(count);
    assert r[12..16] == WriteUint32LE(size) && r[16..20] == WriteUint32LE(offset);
    LastPiece(EndSignature + WriteUint16LE(0) + WriteUint16LE(0) + WriteUint16LE(count)
      + WriteUint16LE(count) + WriteUint32LE(size) + WriteUint32LE(offset), WriteUint16LE(0));
  }

  /** What a reader finds in the end record: the entry counts, the directory's size and its offset. */
  lemma {:induction false} EndRecordFields(count: nat, size: nat, offset: nat)
    ensures var r := EndRecord(count, size, offset);
      && r[..4] == EndSignature
      && LittleEndian(r[4..6]) == 0 && LittleEndian(r[6..8]) == 0
      && LittleEndian(r[8..10]) == count % Two16
      && LittleEndian(r[10..12]) == count % Two16
      && LittleEndian(r[12..16]) == size % Two32
      && LittleEndian(r[16..20]) == offset % Two32
      && LittleEndian(r[20..22]) == 0
  {
    var r := EndRecord(count, size, offset);
    EndRecordLayout(count, size, offset);
    ReadBack16(r, 4, 6, 0);
    ReadBack16(r, 6, 8, 0);
    ReadBack16(r, 8, 10, count);
    ReadBack16(r, 10, 12, count);
    ReadBack32(r, 12, 16, size);
    ReadBack32(r, 16, 20, offset);
    ReadBack16(r, 20, 22, 0);
  }

  /** The local header `createAndDownloadZip` writes for an entry. */
  function LocalHeaderOf(e: Entry, dt: DateTime): (r: Bytes)
    ensures |r| == 30 + |e.name|
  {
    LocalHeader(e.name, e.crc, |e.content|, dt)
  }

  /** The central header it writes for an entry whose local header starts at `offset`. */
  function CentralHeaderOf(e: Entry, offset: nat, dt: DateTime): (r: Bytes)
    ensures |r| == 46 + |e.name|
  {
    CentralHeader(e.name, e.crc, |e.content|, e.isDirectory, offset, dt)
  }

  /** The sizes of the local headers and contents of `es`, added up: the running `offset`. */
  function RecordsSize(es: seq<Entry>): nat {
    if es == [] then 0
    else
      var last := es[|es| - 1];
      RecordsSize(es[..|es| - 1]) + 30 + |last.name| + |last.content|
  }

  /** The sizes of the central headers of `es`, added up: `centralDirSize`. */
  function CentralSize(es: seq<Entry>): nat {
    if es == [] then 0 else CentralSize(es[..|es| - 1]) + 46 + |es[|es| - 1].name|
  }

  /** The local records: each entry's local header followed by its content. */
  function LocalRecords(es: seq<Entry>, dt: DateTime): (r: Bytes)
    ensures |r| == RecordsSize(es)
  {
    if es == [] then []
    else
      var last := es[|es| - 1];
      LocalRecords(es[..|es| - 1], dt) + LocalHeaderOf(last, dt) + last.content
  }

  /** The central directory: each entry's central header, recording where its local header starts. */
  function CentralDirectory(es: seq<Entry>, dt: DateTime): (r: Bytes)
    ensures |r| == CentralSize(es)
  {
    if es == [] then []
    else
      var init := es[..|es| - 1];
      CentralDirectory(init, dt) + CentralHeaderOf(es[|es| - 1], RecordsSize(init), dt)
  }

  /** The archive: the local records, then the central directory, then the end record. */
  function Archive(es: seq<Entry>, dt: DateTime): Bytes {
    LocalRecords(es, dt) + CentralDirectory(es, dt) + EndRecord(|es|, CentralSize(es), RecordsSize(es))
  }

  /** One more entry: its records, its central header and their sizes go at the ends. */
  lemma {:induction false} ArchiveStep(es: seq<Entry>, e: Entry, dt: DateTime)
    ensures RecordsSize(es + [e]) == RecordsSize(es) + 30 + |e.name| + |e.content|
    ensures CentralSize(es + [e]) == CentralSize(es) + 46 + |e.name|
    ensures LocalRecords(es + [e], dt) == LocalRecords(es, dt) + LocalHeaderOf(e, dt) + e.content
    ensures CentralDirectory(es + [e], dt) == CentralDirectory(es, dt) + CentralHeaderOf(e, RecordsSize(es), dt)
  {
    assert (es + [e])[..|es|] == es;
  }

  /** Encoding one more accepted entry. */
  lemma {:induction false} EncodeAllStep(fs: seq<FileSpec>, encode: string -> Bytes, n: nat)
    requires n < |fs| && forall k :: 0 <= k <= n ==> Acceptable(fs[k])
    ensures EncodeAll(fs[..n + 1], encode) == EncodeAll(fs[..n], encode) + [EncodeEntry(fs[n], encode)]
  {
    TakeTake(fs, n + 1, n);
  }

  lemma {:induction false} LocalRecordsPrefix(es: seq<Entry>, dt: DateTime, k: nat)
    requires k <= |es|
    ensures LocalRecords(es[..k], dt) <= LocalRecords(es, dt)
    decreases |es|
  {
    if k < |es| {
      var init, last := es[..|es| - 1], es[|es| - 1];
      TakeTake(es, |es| - 1, k);
      LocalRecordsPrefix(init, dt, k);
      PrefixOfAppend(LocalRecords(init, dt), LocalHeaderOf(last, dt), last.content);
      PrefixTransitive(LocalRecords(es[..k], dt), LocalRecords(init, dt), LocalRecords(es, dt));
    } else {
      TakeAll(es);
    }
  }

  lemma {:induction false} CentralDirectoryPrefix(es: seq<Entry>, dt: DateTime, k: nat)
    requires k <= |es|
    ensures CentralDirectory(es[..k], dt) <= CentralDirectory(es, dt)
    decreases |es|
  {
    if k < |es| {
      var init := es[..|es| - 1];
      TakeTake(es, |es| - 1, k);
      CentralDirectoryPrefix(init, dt, k);
      PrefixOfConcat(CentralDirectory(init, dt), CentralHeaderOf(es[|es| - 1], RecordsSize(init), dt));
      PrefixTransitive(CentralDirectory(es[..k], dt), CentralDirectory(init, dt), CentralDirectory(es, dt));
    } else {
      TakeAll(es);
    }
  }

  /** Entry `i`'s local header starts at the sizes of the records before it added up; its content follows. */
  lemma {:induction false} LocalRecordAt(es: seq<Entry>, dt: DateTime, i: nat)
    requires i < |es|
    ensures var a, p, h := Archive(es, dt), RecordsSize(es[..i]), LocalHeaderOf(es[i], dt);
      && p + |h| + |es[i].content| <= |a|
      && a[p..p + |h|] == h
      && a[p + |h|..p + |h| + |es[i].content|] == es[i].content
  {
    LocalRecordIn(es, dt, i, CentralDirectory(es, dt), EndRecord(|es|, CentralSize(es), RecordsSize(es)));
  }

  /** The same, whatever follows the local records. */
  lemma {:induction false} LocalRecordIn(es: seq<Entry>, dt: DateTime, i: nat, m: Bytes, end: Bytes)
    requires i < |es|
    ensures var a, p, h := LocalRecords(es, dt) + m + end, RecordsSize(es[..i]), LocalHeaderOf(es[i], dt);
      && p + |h| + |es[i].content| <= |a|
      && a[p..p + |h|] == h
      && a[p + |h|..p + |h| + |es[i].content|] == es[i].content
  {
    LocalRecordsUpTo(es, dt, i);
    FrontPieces(LocalRecords(es, dt), m, end, LocalRecords(es[..i], dt), LocalHeaderOf(es[i], dt), es[i].content, RecordsSize(es[..i]));
  }

  /** The records of the entries before `i`, then entry `i`'s header and content, begin the local records. */
  lemma {:induction false} LocalRecordsUpTo(es: seq<Entry>, dt: DateTime, i: nat)
    requires i < |es|
    ensures LocalRecords(es[..i], dt) + LocalHeaderOf(es[i], dt) + es[i].content <= LocalRecords(es, dt)
  {
    var pre := es[..i + 1];
    assert pre[..|pre| - 1] == es[..i];
    LocalRecordsPrefix(es, dt, i + 1);
  }

  /** Within the central directory, header `i` follows the headers before it. */
  lemma {:induction false} CentralRegionAt(es: seq<Entry>, dt: DateTime, i: nat)
    requires i < |es|
    ensures var m, p, h := CentralDirectory(es, dt), CentralSize(es[..i]), CentralHeaderOf(es[i], RecordsSize(es[..i]), dt);
      p + |h| <= |m| && m[p..p + |h|] == h
  {
    CentralDirectoryUpTo(es, dt, i);
    PrefixPiece(CentralDirectory(es, dt), CentralDirectory(es[..i], dt),
      CentralHeaderOf(es[i], RecordsSize(es[..i]), dt), CentralSize(es[..i]));
  }

  /** The headers of the entries before `i`, then entry `i`'s header, begin the central directory. */
  lemma {:induction false} CentralDirectoryUpTo(es: seq<Entry>, dt: DateTime, i: nat)
    requires i < |es|
    ensures CentralDirectory(es[..i], dt) + CentralHeaderOf(es[i], RecordsSize(es[..i]), dt) <= CentralDirectory(es, dt)
  {
    var pre := es[..i + 1];
    assert pre[..|pre| - 1] == es[..i];
    CentralDirectoryPrefix(es, dt, i + 1);
  }

  /** Central header `i` starts after the local records and the central headers before it. */
  lemma {:induction false} CentralHeaderAt(es: seq<Entry>, dt: DateTime, i: nat)
    requires i < |es|
    ensures Placed(Archive(es, dt), RecordsSize(es) + CentralSize(es[..i]), CentralHeaderOf(es[i], RecordsSize(es[..i]), dt))
  {
    CentralRegionAt(es, dt, i);
    SliceOfMiddle(LocalRecords(es, dt), CentralDirectory(es, dt), EndRecord(|es|, CentralSize(es), RecordsSize(es)),
      RecordsSize(es), CentralSize(es[..i]), CentralHeaderOf(es[i], RecordsSize(es[..i]), dt));
  }

  /** The archive ends with the end record; the central directory sits between it and the local records. */
  lemma {:induction false} EndRecordAt(es: seq<Entry>, dt: DateTime)
    ensures var a := Archive(es, dt);
      && |a| == RecordsSize(es) + CentralSize(es) + 22
      && a[|a| - 22..] == EndRecord(|es|, CentralSize(es), RecordsSize(es))
      && a[RecordsSize(es)..RecordsSize(es) + CentralSize(es)] == CentralDirectory(es, dt)
  {
    EndRecordIn(es, dt, LocalRecords(es, dt), EndRecord(|es|, CentralSize(es), RecordsSize(es)));
  }

  /** The same, for any 22 bytes after the central directory and any `l` as long as the local records before it. */
  lemma {:induction false} EndRecordIn(es: seq<Entry>, dt: DateTime, l: Bytes, end: Bytes)
    requires |l| == RecordsSize(es) && |end| == 22
    ensures var a := l + CentralDirectory(es, dt) + end;
      && |a| == RecordsSize(es) + CentralSize(es) + 22
      && a[|a| - 22..] == end
      && a[RecordsSize(es)..RecordsSize(es) + CentralSize(es)] == CentralDirectory(es, dt)
  {
    SliceOf(l, CentralDirectory(es, dt), end);
  }

  /** The `n` bytes at offset `at`. */
  function Field(a: Bytes, at: nat, n: nat): (f: Bytes)
    requires at + n <= |a|
    ensures |f| == n
  {
    a[at..at + n]
  }

  /**
   * Reading central header `i` back: it starts with its signature, its offset field holds where
   * entry `i`'s local header starts (modulo 2^32), and both headers carry the entry's name.
   */
  lemma {:induction false} CentralHeaderPointsAtLocalHeader(es: seq<Entry>, dt: DateTime, i: nat)
    requires i < |es|
    ensures var a, p, q, name := Archive(es, dt), RecordsSize(es[..i]), RecordsSize(es) + CentralSize(es[..i]), es[i].name;
      && q + 46 + |name| <= |a| && p + 30 + |name| <= |a|
      && Field(a, q, 4) == CentralSignature
      && LittleEndian(Field(a, q + 42, 4)) == p % Two32
      && Field(a, q + 46, |name|) == name
      && Field(a, p, 4) == LocalSignature
      && Field(a, p + 30, |name|) == name
  {
    CentralFieldsAt(es, dt, i);
    LocalFieldsIn(es, dt, i, CentralDirectory(es, dt), EndRecord(|es|, CentralSize(es), RecordsSize(es)));
  }

  /** Central header `i` within the whole archive, its offset field read back as a number. */
  lemma {:induction false} CentralFieldsAt(es: seq<Entry>, dt: DateTime, i: nat)
    requires i < |es|
    ensures var a, p, q, name := Archive(es, dt), RecordsSize(es[..i]), RecordsSize(es) + CentralSize(es[..i]), es[i].name;
      && q + 46 + |name| <= |a|
      && Field(a, q, 4) == CentralSignature
      && LittleEndian(Field(a, q + 42, 4)) == p % Two32
      && Field(a, q + 46, |name|) == name
  {
    var l, m, end := CentralPieces(es, dt, i);
    var a, c, p := Archive(es, dt), CentralSize(es[..i]), RecordsSize(es[..i]);
    CentralFieldsIn(l, m, end, a, c, |l| + c, p, es[i].name);
  }

  /**
   * The archive cut into its local records, central directory and end record, with the fields
   * of central header `i` located within the directory.
   */
  lemma {:induction false} CentralPieces(es: seq<Entry>, dt: DateTime, i: nat) returns (l: Bytes, m: Bytes, end: Bytes)
    requires i < |es|
    ensures var c, p, name := CentralSize(es[..i]), RecordsSize(es[..i]), es[i].name;
      && Archive(es, dt) == l + m + end && |l| == RecordsSize(es)
      && c + 46 + |name| <= |m|
      && Field(m, c, 4) == CentralSignature && Field(m, c + 42, 4) == WriteUint32LE(p) && Field(m, c + 46, |name|) == name
  {
    l, m, end := LocalRecords(es, dt), CentralDirectory(es, dt), EndRecord(|es|, CentralSize(es), RecordsSize(es));
    DirectoryFieldsAt(es, dt, i);
  }

  lemma {:induction false} ArchiveSplit(es: seq<Entry>, dt: DateTime)
    ensures Archive(es, dt) == LocalRecords(es, dt) + CentralDirectory(es, dt) + EndRecord(|es|, CentralSize(es), RecordsSize(es))
    ensures |LocalRecords(es, dt)| == RecordsSize(es)
  {
  }

  /** The central-header fields of `m`, read within `l + m + end`. */
  lemma {:induction false} CentralFieldsIn(l: Bytes, m: Bytes, end: Bytes, a: Bytes, c: nat, q: nat, p: nat, name: Bytes)
    requires a == l + m + end && q == |l| + c
    requires c + 46 + |name| <= |m|
    requires Field(m, c, 4) == CentralSignature && Field(m, c + 42, 4) == WriteUint32LE(p) && Field(m, c + 46, |name|) == name
    ensures q + 46 + |name| <= |a|
    ensures Field(a, q, 4) == CentralSignature
    ensures LittleEndian(Field(a, q + 42, 4)) == p % Two32
    ensures Field(a, q + 46, |name|) == name
  {
    PlacedFields(l, m, end, c, CentralSignature, WriteUint32LE(p), name);
    ReadField32(a, |l| + c + 42, p);
  }

  /** A field written by `WriteUint32LE` reads back as the value modulo 2^32. */
  lemma {:induction false} ReadField32(a: Bytes, at: nat, value: nat)
    requires at + 4 <= |a| && Field(a, at, 4) == WriteUint32LE(value)
    ensures LittleEndian(Field(a, at, 4)) == value % Two32
  {
    ReadUint32(value);
  }

  /** The fields of a central header within `m` are found |l| further on in `l + m + end`. */
  lemma {:induction false} PlacedFields(l: Bytes, m: Bytes, end: Bytes, c: nat, signature: Bytes, offsetField: Bytes, name: Bytes)
    requires c + 46 + |name| <= |m|
    requires Field(m, c, 4) == signature && Field(m, c + 42, 4) == offsetField && Field(m, c + 46, |name|) == name
    ensures |l| + c + 46 + |name| <= |l + m + end|
    ensures Field(l + m + end, |l| + c, 4) == signature
    ensures Field(l + m + end, |l| + c + 42, 4) == offsetField
    ensures Field(l + m + end, |l| + c + 46, |name|) == name
  {
    var a := l + m + end;
    SliceOf(l, m, end);
    SubSlice(a, |l|, m, c, 4, signature);
    SubSlice(a, |l|, m, c + 42, 4, offsetField);
    SubSlice(a, |l|, m, c + 46, |name|, name);
  }

  /** The same fields, located within the central directory. */
  lemma {:induction false} DirectoryFieldsAt(es: seq<Entry>, dt: DateTime, i: nat)
    requires i < |es|
    ensures var m, p, c, name := CentralDirectory(es, dt), RecordsSize(es[..i]), CentralSize(es[..i]), es[i].name;
      && c + 46 + |name| <= |m|
      && Field(m, c, 4) == CentralSignature
      && Field(m, c + 42, 4) == WriteUint32LE(p)
      && Field(m, c + 46, |name|) == name
  {
    var e := es[i];
    var p := RecordsSize(es[..i]);
    var m, c, h := CentralDirectory(es, dt), CentralSize(es[..i]), CentralHeaderOf(e, p, dt);
    CentralRegionAt(es, dt, i);
    CentralHeaderKeyFields(e.name, e.crc, |e.content|, e.isDirectory, p, dt);
    HeaderFields(m, c, h, CentralSignature, 42, WriteUint32LE(p), 46, e.name);
  }

  /** The signature and name of local header `i`, whatever follows the local records. */
  lemma {:induction false} LocalFieldsIn(es: seq<Entry>, dt: DateTime, i: nat, m: Bytes, end: Bytes)
    requires i < |es|
    ensures var a, p, name := LocalRecords(es, dt) + m + end, RecordsSize(es[..i]), es[i].name;
      && p + 30 + |name| <= |a|
      && Field(a, p, 4) == LocalSignature
      && Field(a, p + 30, |name|) == name
  {
    var e := es[i];
    LocalRecordIn(es, dt, i, m, end);
    LocalHeaderLayout(e.name, e.crc, |e.content|, dt);
    HeaderFields(LocalRecords(es, dt) + m + end, RecordsSize(es[..i]), LocalHeaderOf(e, dt),
      LocalSignature, 14, WriteUint32LE(e.crc), 30, e.name);
  }

  /**
   * A header `h` placed at `q` in `a`: its signature, a four-byte field at `at` and the name at
   * `nameAt` are where a reader looks for them.
   */
  lemma {:induction false} HeaderFields(a: Bytes, q: nat, h: Bytes, signature: Bytes, at: nat, field: Bytes, nameAt: nat, name: Bytes)
    requires q + |h| <= |a| && a[q..q + |h|] == h
    requires 4 <= |h| && h[..4] == signature
    requires at + 4 <= |h| && h[at..at + 4] == field
    requires nameAt + |name| <= |h| && h[nameAt..nameAt + |name|] == name
    ensures q + nameAt + |name| <= |a|
    ensures Field(a, q, 4) == signature
    ensures Field(a, q + at, 4) == field
    ensures Field(a, q + nameAt, |name|) == name
  {
    SubSliceStart(a, q, h, 4, signature);
    SubSlice(a, q, h, at, 4, field);
    SubSlice(a, q, h, nameAt, |name|, name);
  }

  /**
   * Reading the end record back: it holds the number of entries (modulo 2^16), and the size and
   * offset (modulo 2^32) of the central directory, which sits at that offset.
   */
  lemma {:induction false} EndRecordDescribesDirectory(es: seq<Entry>, dt: DateTime)
    ensures var a := Archive(es, dt);
      var e := |a| - 22;
      && e == RecordsSize(es) + CentralSize(es)
      && Field(a, e, 4) == EndSignature
      && LittleEndian(Field(a, e + 8, 2)) == |es| % Two16
      && LittleEndian(Field(a, e + 10, 2)) == |es| % Two16
      && LittleEndian(Field(a, e + 12, 4)) == CentralSize(es) % Two32
      && LittleEndian(Field(a, e + 16, 4)) == RecordsSize(es) % Two32
      && Field(a, RecordsSize(es), CentralSize(es)) == CentralDirectory(es, dt)
  {
    EndFieldsAt(es, dt);
    ReadUint16(|es|);
    ReadUint32(CentralSize(es));
    ReadUint32(RecordsSize(es));
  }

  /** The bytes of the end record's fields, where the archive holds them. */
  lemma {:induction false} EndFieldsAt(es: seq<Entry>, dt: DateTime)
    ensures var a := Archive(es, dt);
      var e := |a| - 22;
      && e == RecordsSize(es) + CentralSize(es)
      && Field(a, e, 4) == EndSignature
      && Field(a, e + 8, 2) == WriteUint16LE(|es|)
      && Field(a, e + 10, 2) == WriteUint16LE(|es|)
      && Field(a, e + 12, 4) == WriteUint32LE(CentralSize(es))
      && Field(a, e + 16, 4) == WriteUint32LE(RecordsSize(es))
      && Field(a, RecordsSize(es), CentralSize(es)) == CentralDirectory(es, dt)
  {
    EndRecordLayout(|es|, CentralSize(es), RecordsSize(es));
    EndFieldsIn(es, dt, LocalRecords(es, dt), EndRecord(|es|, CentralSize(es), RecordsSize(es)));
  }

  /** The fields of an end record `end` that follows the central directory, where the archive holds them. */
  lemma {:induction false} EndFieldsIn(es: seq<Entry>, dt: DateTime, l: Bytes, end: Bytes)
    requires |l| == RecordsSize(es) && |end| == 22 && end[..4] == EndSignature
    requires end[8..10] == WriteUint16LE(|es|) && end[10..12] == WriteUint16LE(|es|)
    requires end[12..16] == WriteUint32LE(CentralSize(es)) && end[16..20] == WriteUint32LE(RecordsSize(es))
    ensures var a := l + CentralDirectory(es, dt) + end;
      var e := |a| - 22;
      && e == RecordsSize(es) + CentralSize(es)
      && Field(a, e, 4) == EndSignature
      && Field(a, e + 8, 2) == WriteUint16LE(|es|)
      && Field(a, e + 10, 2) == WriteUint16LE(|es|)
      && Field(a, e + 12, 4) == WriteUint32LE(CentralSize(es))
      && Field(a, e + 16, 4) == WriteUint32LE(RecordsSize(es))
      && Field(a, RecordsSize(es), CentralSize(es)) == CentralDirectory(es, dt)
  {
    var a := l + CentralDirectory(es, dt) + end;
    var e := |a| - 22;
    EndRecordIn(es, dt, l, end);
    assert a[e..e + 22] == end;
    SubSliceStart(a, e, end, 4, EndSignature);
    SubSlice(a, e, end, 8, 2, WriteUint16LE(|es|));
    SubSlice(a, e, end, 10, 2, WriteUint16LE(|es|));
    SubSlice(a, e, end, 12, 4, WriteUint32LE(CentralSize(es)));
    SubSlice(a, e, end, 16, 4, WriteUint32LE(RecordsSize(es)));
  }
}
