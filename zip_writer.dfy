/**
 * `createAndDownloadZip` as the sketch exporter runs it: each header is written field by field
 * into a fixed-size byte buffer at a running position, the pieces are collected in lists, and
 * the archive is assembled by copying every piece into one buffer of the total size.
 */
module ZipWriter {
  import opened Wrappers
  import opened Seqs
  import opened ZipPaths
  import opened ZipArchive
  import Crc32

  /** `buf.set(data, pos)`: copies `data` into `buf` from `pos`, leaving the rest as it was. */
  method SetAt(buf: array<Byte>, data: Bytes, pos: nat)
    requires pos + |data| <= buf.Length
    modifies buf
    ensures buf[..pos + |data|] == old(buf[..pos]) + data
    ensures forall j :: pos + |data| <= j < buf.Length ==> buf[j] == old(buf[j])
  {
    for k := 0 to |data|
      invariant buf[..pos + k] == old(buf[..pos]) + data[..k]
      invariant forall j :: pos + k <= j < buf.Length ==> buf[j] == old(buf[j])
    {
      buf[pos + k] := data[k];
      assert data[..k + 1] == data[..k] + [data[k]];
      assert buf[..pos + k + 1] == buf[..pos + k] + [buf[pos + k]];
    }
  }

  /**
   * One field of a header: `buf.set(data, pos); pos += data.length`, where `written` is what the
   * buffer already holds before `pos`.
   */
  method Put(buf: array<Byte>, data: Bytes, pos: nat, ghost written: Bytes) returns (next: nat)
    requires pos == |written| && pos + |data| <= buf.Length && buf[..pos] == written
    modifies buf
    ensures next == pos + |data| && buf[..next] == written + data
  {
    SetAt(buf, data, pos);
    next := pos + |data|;
  }

  /**
   * The fields both headers share, in the same order: time, date, CRC-32, compressed and
   * uncompressed size, name length.
   */
  method PutFileFields(buf: array<Byte>, pos: nat, ghost written: Bytes,
                       dateTime: DateTime, crc: nat, contentLength: nat, nameLength: nat)
    returns (next: nat)
    requires pos == |written| && pos + 18 <= buf.Length && buf[..pos] == written
    modifies buf
    ensures next == pos + 18
    ensures buf[..next] == written + WriteUint16LE(dateTime.time) + WriteUint16LE(dateTime.date)
      + WriteUint32LE(crc) + WriteUint32LE(contentLength) + WriteUint32LE(contentLength)
      + WriteUint16LE(nameLength)
  {
    ghost var w := written;
    next := Put(buf, WriteUint16LE(dateTime.time), pos, w); w := w + WriteUint16LE(dateTime.time);
    next := Put(buf, WriteUint16LE(dateTime.date), next, w); w := w + WriteUint16LE(dateTime.date);
    next := Put(buf, WriteUint32LE(crc), next, w); w := w + WriteUint32LE(crc);
    next := Put(buf, WriteUint32LE(contentLength), next, w); w := w + WriteUint32LE(contentLength);
    next := Put(buf, WriteUint32LE(contentLength), next, w); w := w + WriteUint32LE(contentLength);
    next := Put(buf, WriteUint16LE(nameLength), next, w);
  }

  /** The local file header for one entry, written field by field as the exporter writes it. */
  method WriteLocalHeader(filename: Bytes, crc: nat, contentLength: nat, dateTime: DateTime)
    returns (localHeader: array<Byte>)
    ensures fresh(localHeader)
    ensures localHeader[..] == LocalHeader(filename, crc, contentLength, dateTime)
  {
    localHeader := new Byte[30 + |filename|];
    var pos := 0;
    ghost var w: Bytes := [];
    pos := Put(localHeader, LocalSignature, pos, w);
    assert w + LocalSignature == LocalSignature;
    w := LocalSignature;
    pos := Put(localHeader, WriteUint16LE(Version), pos, w); w := w + WriteUint16LE(Version);
    pos := Put(localHeader, WriteUint16LE(0), pos, w); w := w + WriteUint16LE(0);
    pos := Put(localHeader, WriteUint16LE(0), pos, w); w := w + WriteUint16LE(0);
    pos := PutFileFields(localHeader, pos, w, dateTime, crc, contentLength, |filename|);
    w := w + WriteUint16LE(dateTime.time) + WriteUint16LE(dateTime.date) + WriteUint32LE(crc)
      + WriteUint32LE(contentLength) + WriteUint32LE(contentLength) + WriteUint16LE(|filename|);
    pos := Put(localHeader, WriteUint16LE(0), pos, w); w := w + WriteUint16LE(0);
    pos := Put(localHeader, filename, pos, w); w := w + filename;
    assert localHeader[..] == localHeader[..pos];
  }

  /** The central directory header for one entry, written field by field. */
  method WriteCentralHeader(filename: Bytes, crc: nat, contentLength: nat, isDirectory: bool, offset: nat, dateTime: DateTime)
    returns (centralHeader: array<Byte>)
    ensures fresh(centralHeader)
    ensures centralHeader[..] == CentralHeader(filename, crc, contentLength, isDirectory, offset, dateTime)
  {
    centralHeader := new Byte[46 + |filename|];
    var pos := 0;
    ghost var w: Bytes := [];
    pos := Put(centralHeader, CentralSignature, pos, w);
    assert w + CentralSignature == CentralSignature;
    w := CentralSignature;
    pos := Put(centralHeader, WriteUint16LE(Version), pos, w); w := w + WriteUint16LE(Version);
    pos := Put(centralHeader, WriteUint16LE(Version), pos, w); w := w + WriteUint16LE(Version);
    pos := Put(centralHeader, WriteUint16LE(0), pos, w); w := w + WriteUint16LE(0);
    pos := Put(centralHeader, WriteUint16LE(0), pos, w); w := w + WriteUint16LE(0);
    pos := PutFileFields(centralHeader, pos, w, dateTime, crc, contentLength, |filename|);
    w := w + WriteUint16LE(dateTime.time) + WriteUint16LE(dateTime.date) + WriteUint32LE(crc)
      + WriteUint32LE(contentLength) + WriteUint32LE(contentLength) + WriteUint16LE(|filename|);
    pos := Put(centralHeader, WriteUint16LE(0), pos, w); w := w + WriteUint16LE(0);
    pos := Put(centralHeader, WriteUint16LE(0), pos, w); w := w + WriteUint16LE(0);
    pos := Put(centralHeader, WriteUint16LE(0), pos, w); w := w + WriteUint16LE(0);
    pos := Put(centralHeader, WriteUint16LE(0), pos, w); w := w + WriteUint16LE(0);
    var externalAttrs := ExternalAttributes(isDirectory);
    pos := Put(centralHeader, WriteUint32LE(externalAttrs), pos, w); w := w + WriteUint32LE(externalAttrs);
    pos := Put(centralHeader, WriteUint32LE(offset), pos, w); w := w + WriteUint32LE(offset);
    pos := Put(centralHeader, filename, pos, w); w := w + filename;
    assert centralHeader[..] == centralHeader[..pos];
  }

  /** The end of central directory record, written field by field. */
  method WriteEndRecord(entryCount: nat, centralDirSize: nat, offset: nat) returns (endOfCentralDir: array<Byte>)
    ensures fresh(endOfCentralDir)
    ensures endOfCentralDir[..] == EndRecord(entryCount, centralDirSize, offset)
  {
    endOfCentralDir := new Byte[22];
    var pos := 0;
    ghost var w: Bytes := [];
    pos := Put(endOfCentralDir, EndSignature, pos, w);
    assert w + EndSignature == EndSignature;
    w := EndSignature;
    pos := Put(endOfCentralDir, WriteUint16LE(0), pos, w); w := w + WriteUint16LE(0);
    pos := Put(endOfCentralDir, WriteUint16LE(0), pos, w); w := w + WriteUint16LE(0);
    pos := Put(endOfCentralDir, WriteUint16LE(entryCount), pos, w); w := w + WriteUint16LE(entryCount);
    pos := Put(endOfCentralDir, WriteUint16LE(entryCount), pos, w); w := w + WriteUint16LE(entryCount);
    pos := Put(endOfCentralDir, WriteUint32LE(centralDirSize), pos, w); w := w + WriteUint32LE(centralDirSize);
    pos := Put(endOfCentralDir, WriteUint32LE(offset), pos, w); w := w + WriteUint32LE(offset);
    pos := Put(endOfCentralDir, WriteUint16LE(0), pos, w); w := w + WriteUint16LE(0);
    assert endOfCentralDir[..] == endOfCentralDir[..pos];
  }

  /** `parts.reduce((sum, data) => sum + data.length, 0)`: the length of the parts laid end to end. */
  method TotalSize(parts: seq<Bytes>) returns (sum: nat)
    ensures sum == |Flatten(parts)|
  {
    sum := 0;
    for k := 0 to |parts|
      invariant sum == |Flatten(parts[..k])|
    {
      FlattenStep(parts, k);
      sum := sum + |parts[k]|;
    }
    TakeAll(parts);
  }

  /**
   * `parts.forEach(data => { zipBuffer.set(data, bufferPos); bufferPos += data.length; })`:
   * the parts copied one after another from `pos`.
   */
  method CopyAll(buf: array<Byte>, parts: seq<Bytes>, pos: nat, ghost written: Bytes) returns (next: nat)
    requires pos == |written| && pos + |Flatten(parts)| <= buf.Length && buf[..pos] == written
    modifies buf
    ensures next == pos + |Flatten(parts)| && buf[..next] == written + Flatten(parts)
  {
    next := pos;
    for k := 0 to |parts|
      invariant next == pos + |Flatten(parts[..k])| && |Flatten(parts[..k])| <= |Flatten(parts)|
      invariant buf[..next] == written + Flatten(parts[..k])
    {
      FlattenStep(parts, k);
      FlattenPrefixLength(parts, k + 1);
      next := Put(buf, parts[k], next, written + Flatten(parts[..k]));
    }
    TakeAll(parts);
  }

  /**
   * The body of the exporter's `forEach` over the entries, for an entry that passes its check:
   * the local header and content pushed on `zipData`, the central header (recording `offset`)
   * on `centralDirectory`, and `offset` moved past the local record.
   */
  method AddEntry(file: FileSpec, encode: string -> Bytes, dateTime: DateTime,
                  zipData: seq<Bytes>, centralDirectory: seq<Bytes>, offset: nat)
    returns (zipData': seq<Bytes>, centralDirectory': seq<Bytes>, offset': nat)
    requires Acceptable(file)
    ensures var e := EncodeEntry(file, encode);
      && zipData' == zipData + [LocalHeaderOf(e, dateTime), e.content]
      && centralDirectory' == centralDirectory + [CentralHeaderOf(e, offset, dateTime)]
      && offset' == offset + 30 + |e.name| + |e.content|
  {
    var filename := encode(file.filename);
    var content := if file.isDirectory then [] else encode(file.content.value);
    var crc := Crc32.Crc32(content);
    var localHeader := WriteLocalHeader(filename, crc, |content|, dateTime);
    zipData' := zipData + [localHeader[..], content];
    var centralHeader := WriteCentralHeader(filename, crc, |content|, file.isDirectory, offset, dateTime);
    centralDirectory' := centralDirectory + [centralHeader[..]];
    offset' := offset + localHeader.Length + |content|;
  }

  /** What `AddEntry` pushes extends the records, the directory and the offset by one entry. */
  lemma {:induction false} AddEntryExtends(zipData: seq<Bytes>, centralDirectory: seq<Bytes>, es: seq<Entry>, e: Entry, dateTime: DateTime)
    requires Flatten(zipData) == LocalRecords(es, dateTime)
    requires Flatten(centralDirectory) == CentralDirectory(es, dateTime)
    ensures Flatten(zipData + [LocalHeaderOf(e, dateTime), e.content]) == LocalRecords(es + [e], dateTime)
    ensures Flatten(centralDirectory + [CentralHeaderOf(e, RecordsSize(es), dateTime)]) == CentralDirectory(es + [e], dateTime)
    ensures RecordsSize(es) + 30 + |e.name| + |e.content| == RecordsSize(es + [e])
  {
    ArchiveStep(es, e, dateTime);
    var lh := LocalHeaderOf(e, dateTime);
    assert zipData + [lh, e.content] == (zipData + [lh]) + [e.content];
    FlattenPush(zipData, lh);
    FlattenPush(zipData + [lh], e.content);
    FlattenPush(centralDirectory, CentralHeaderOf(e, RecordsSize(es), dateTime));
  }

  /**
   * The final copy: a buffer of the total size, holding the local records, then the central
   * directory, then the end record.
   */
  method Assemble(zipData: seq<Bytes>, centralDirectory: seq<Bytes>, endOfCentralDir: Bytes)
    returns (zipBuffer: array<Byte>)
    ensures fresh(zipBuffer)
    ensures zipBuffer[..] == Flatten(zipData) + Flatten(centralDirectory) + endOfCentralDir
  {
    var centralDirSize := TotalSize(centralDirectory);
    var totalSize := TotalSize(zipData);
    totalSize := totalSize + centralDirSize + |endOfCentralDir|;
    zipBuffer := new Byte[totalSize];
    var bufferPos := CopyAll(zipBuffer, zipData, 0, []);
    bufferPos := CopyAll(zipBuffer, centralDirectory, bufferPos, Flatten(zipData));
    bufferPos := Put(zipBuffer, endOfCentralDir, bufferPos, Flatten(zipData) + Flatten(centralDirectory));
    assert zipBuffer[..] == zipBuffer[..bufferPos];
  }

  /** Some entry fails the check `createAndDownloadZip` throws for. */
  predicate SomeRejected(entries: seq<FileSpec>) {
    exists k :: 0 <= k < |entries| && !Acceptable(entries[k])
  }

  /** `allEntries`: the directory entries, then the files under their normalized names. */
  method CollectEntries(files: seq<FileSpec>) returns (allEntries: seq<FileSpec>)
    ensures allEntries == AllEntries(files)
  {
    var directoryEntries := ProcessDirectories(files);
    assert directoryEntries == Map(Directories(files), DirectoryEntry);
    allEntries := directoryEntries + Map(files, Normalized);
  }

  /**
   * The exporter's `forEach` over the entries: `ok` is false exactly when an entry fails the
   * check (the thrown error); otherwise the pushed pieces lay out the local records and the
   * central directory of all the entries, and `offset` is where the central directory starts.
   */
  method AddEntries(allEntries: seq<FileSpec>, encode: string -> Bytes, dateTime: DateTime)
    returns (ok: bool, zipData: seq<Bytes>, centralDirectory: seq<Bytes>, offset: nat)
    ensures ok <==> !SomeRejected(allEntries)
    ensures ok ==> var es := EncodeAll(allEntries, encode);
      && Flatten(zipData) == LocalRecords(es, dateTime)
      && Flatten(centralDirectory) == CentralDirectory(es, dateTime)
      && offset == RecordsSize(es)
  {
    zipData, centralDirectory, offset := [], [], 0;
    ghost var es: seq<Entry> := [];
    for n := 0 to |allEntries|
      invariant forall k :: 0 <= k < n ==> Acceptable(allEntries[k])
      invariant es == EncodeAll(allEntries[..n], encode)
      invariant Flatten(zipData) == LocalRecords(es, dateTime)
      invariant Flatten(centralDirectory) == CentralDirectory(es, dateTime)
      invariant offset == RecordsSize(es)
    {
      var file := allEntries[n];
      if file.filename == [] || (file.content.None? && !file.isDirectory) {
        assert !Acceptable(allEntries[n]);
        return false, zipData, centralDirectory, offset;
      }
      ghost var e := EncodeEntry(file, encode);
      AddEntryExtends(zipData, centralDirectory, es, e, dateTime);
      EncodeAllStep(allEntries, encode, n);
      zipData, centralDirectory, offset := AddEntry(file, encode, dateTime, zipData, centralDirectory, offset);
      es := es + [e];
    }
    TakeAll(allEntries);
    ok := true;
  }

  /**
   * `createAndDownloadZip` up to the download: `None` when an entry has no name, or has no
   * content and is not a directory (the thrown error); otherwise the bytes of the archive of
   * the directory entries and the files under their normalized names. `encode` is the text
   * encoder, `dateTime` the packed clock reading.
   */
  method CreateZip(files: seq<FileSpec>, encode: string -> Bytes, dateTime: DateTime) returns (zip: Option<Bytes>)
    ensures zip.None? <==> SomeRejected(AllEntries(files))
    ensures zip.Some? ==> zip.value == Archive(EncodeAll(AllEntries(files), encode), dateTime)
  {
    var allEntries := CollectEntries(files);
    var ok, zipData, centralDirectory, offset := AddEntries(allEntries, encode, dateTime);
    if !ok {
      return None;
    }
    var centralDirSize := TotalSize(centralDirectory);
    var endOfCentralDir := WriteEndRecord(|allEntries|, centralDirSize, offset);
    var zipBuffer := Assemble(zipData, centralDirectory, endOfCentralDir[..]);
    zip := Some(zipBuffer[..]);
  }
}
