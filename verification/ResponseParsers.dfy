/** The response parsers of src/commands.rs and src/transport.rs, and encoders they invert. */
module ResponseParsers {
  import opened Types
  import opened BigEndian
  import opened Text

  /** An offset/length pair of the string table at `data[i..]`, looked up. */
  function StringAt(data: bytes, i: nat): Result<bytes>
    requires i + 8 <= |data|
  {
    ExtractString(data, U32At(data, i), U32At(data, i + 4))
  }

  // ---------- what a string table entry yields ----------

  /** The entry at `i` names a range of the data in which `text` stands, up to the first NUL. */
  predicate Holds(data: bytes, i: nat, text: bytes)
    requires i + 8 <= |data|
  {
    var offset, length := U32At(data, i), U32At(data, i + 4);
    offset + length <= |data| && BeforeNul(text, data[offset..offset + length]) && ValidUtf8(text)
  }

  /** The entry at `i` names no such range, or what stands there is no text. */
  ghost predicate Unread(data: bytes, i: nat, e: Error)
    requires i + 8 <= |data|
  {
    var offset, length := U32At(data, i), U32At(data, i + 4);
    if offset + length > |data| then e == ProtocolError(StringOutOfBounds)
    else e == StringEncoding && exists t | BeforeNul(t, data[offset..offset + length]) :: !ValidUtf8(t)
  }

  lemma StringMeans(data: bytes, i: nat)
    requires i + 8 <= |data|
    ensures match StringAt(data, i)
            case Ok(text) => Holds(data, i, text)
            case Err(e) => Unread(data, i, e)
  {
    hide U32At, ValidUtf8;
    var offset, length := U32At(data, i), U32At(data, i + 4);
    if offset + length <= |data| {
      var t := UpToNul(data[offset..offset + length]);
      assert BeforeNul(t, data[offset..offset + length]);
    }
  }

  /** The first of some entries that cannot be read, and why. */
  ghost predicate FirstUnread(data: bytes, entries: seq<nat>, e: Error)
    requires forall k | 0 <= k < |entries| :: entries[k] + 8 <= |data|
  {
    exists k | 0 <= k < |entries| ::
      Unread(data, entries[k], e) && forall j | 0 <= j < k :: exists text :: Holds(data, entries[j], text)
  }

  /** An offset and a length, read through the cursor. */
  method ReadEntry(cursor: Cursor) returns (r: Result<(u32, u32)>)
    modifies cursor
    ensures r.Ok? <==> old(cursor.position) + 8 <= |cursor.data|
    ensures r.Ok? ==> && r.value.0 == U32At(cursor.data, old(cursor.position))
                      && r.value.1 == U32At(cursor.data, old(cursor.position) + 4)
                      && cursor.position == old(cursor.position) + 8
    ensures r.Err? ==> r.error == Io(UnexpectedEof)
  {
    var offset :- cursor.ReadU32();
    var length :- cursor.ReadU32();
    return Ok((offset, length));
  }

  /** A string table entry. */
  function Entry(offset: nat, s: bytes): (e: bytes)
    ensures |e| == 8
  {
    Write32(offset % 0x1_0000_0000) + Write32(|s| % 0x1_0000_0000)
  }

  lemma StringAtStable(data: bytes, more: bytes, i: nat)
    requires i + 8 <= |data| && StringAt(data, i).Ok?
    ensures StringAt(data + more, i) == StringAt(data, i)
  {
    hide ExtractString, U32At;
    U32Stable(data, more, i);
    U32Stable(data, more, i + 4);
    ExtractStable(data, more, U32At(data, i), U32At(data, i + 4));
  }

  lemma U32Stable(data: bytes, more: bytes, i: nat)
    requires i + 4 <= |data|
    ensures U32At(data + more, i) == U32At(data, i)
  {
  }

  /** An entry written by the encoder finds its string. */
  lemma StringAtEntry(data: bytes, i: nat, offset: nat, s: bytes)
    requires i + 8 <= |data| && data[i..i + 8] == Entry(offset, s)
    requires Carried(s) && offset + |s| <= |data| && data[offset..offset + |s|] == s && |data| < 0x1_0000_0000
    ensures StringAt(data, i) == Ok(s)
  {
    hide ExtractString, U32At, Write32, Carried;
    var e := Entry(offset, s);
    assert e[..4] == Write32(offset) && e[4..] == Write32(|s|);
    assert data[i..i + 4] == e[..4];
    assert data[i + 4..i + 8] == e[4..];
    Read32(data, i, offset);
    Read32(data, i + 4, |s|);
    ExtractCarried(data, offset, s);
  }

  // ---------- layouts as lists of parts ----------

  /** Where part `k` starts. */
  function Start(parts: seq<bytes>, k: nat): nat
    requires k <= |parts|
  {
    if k == 0 then 0 else Start(parts, k - 1) + |parts[k - 1]|
  }

  lemma {:induction false} StartShift(parts: seq<bytes>, k: nat)
    requires 0 < k <= |parts|
    ensures Start(parts, k) == |parts[0]| + Start(parts[1..], k - 1)
  {
    if k > 1 {
      StartShift(parts, k - 1);
    }
  }

  /** A part stands at its place, and the whole is as long as the parts together. */
  lemma {:induction false} Placed(parts: seq<bytes>, k: nat)
    requires k < |parts|
    ensures |Cat(parts)| == Start(parts, |parts|)
    ensures Start(parts, k) + |parts[k]| <= |Cat(parts)|
    ensures Cat(parts)[Start(parts, k)..Start(parts, k) + |parts[k]|] == parts[k]
  {
    StartShift(parts, |parts|);
    if k > 0 {
      StartShift(parts, k);
      Placed(parts[1..], k - 1);
      var i := Start(parts[1..], k - 1);
      assert Cat(parts)[|parts[0]| + i..|parts[0]| + i + |parts[k]|] == Cat(parts[1..])[i..i + |parts[k]|];
    } else if |parts| > 1 {
      Placed(parts[1..], 0);
    }
  }

  // ---------- object info ----------

  datatype ObjectInfo = ObjectInfo(handle: u32, storageId: u32, objectFormat: u16, protectionStatus: byte,
                                   objectSize: u64, thumbSize: u32, filename: bytes, captureDate: bytes,
                                   modificationDate: bytes, keywords: bytes)

  /** The layout that `parse_object_info` reads, field by field at fixed places. */
  function ObjectInfoAt(data: bytes, handle: u32): (r: Result<ObjectInfo>)
    ensures r.Err? ==> r.error.ProtocolError? || r.error == StringEncoding
  {
    if |data| < 64 then Err(ProtocolError(TooShort)) else
    var filename :- StringAt(data, 28);
    var captureDate :- StringAt(data, 36);
    var modificationDate :- StringAt(data, 44);
    var keywords :- StringAt(data, 52);
    Ok(ObjectInfo(handle, U32At(data, 8), U16At(data, 12), data[14], U64At(data, 16), U32At(data, 24),
                  filename, captureDate, modificationDate, keywords))
  }

  /** Object info as it stands in the data. */
  predicate ObjectInfoIn(data: bytes, handle: u32, o: ObjectInfo) {
    && |data| >= 64 && o.handle == handle
    && o.storageId == U32At(data, 8) && o.objectFormat == U16At(data, 12) && o.protectionStatus == data[14]
    && o.objectSize == U64At(data, 16) && o.thumbSize == U32At(data, 24)
    && Holds(data, 28, o.filename) && Holds(data, 36, o.captureDate)
    && Holds(data, 44, o.modificationDate) && Holds(data, 52, o.keywords)
  }

  /** A successful parse is what stands there; a failure names the first thing that cannot be read. */
  lemma ObjectInfoMeans(data: bytes, handle: u32)
    ensures match ObjectInfoAt(data, handle)
            case Ok(o) => ObjectInfoIn(data, handle, o)
            case Err(e) => if |data| < 64 then e == ProtocolError(TooShort) else FirstUnread(data, [28, 36, 44, 52], e)
  {
    hide StringAt, Holds, Unread, U16At, U32At, U64At;
    if |data| >= 64 {
      StringMeans(data, 28);
      StringMeans(data, 36);
      StringMeans(data, 44);
      StringMeans(data, 52);
      FourEntries(data, [28, 36, 44, 52]);
    }
  }

  /** The entries are read in their order. */
  lemma FourEntries(data: bytes, entries: seq<nat>)
    requires |entries| == 4 && forall k | 0 <= k < |entries| :: entries[k] + 8 <= |data|
    ensures forall e |
              || Unread(data, entries[0], e)
              || ((exists t :: Holds(data, entries[0], t)) && Unread(data, entries[1], e))
              || ((exists t :: Holds(data, entries[0], t)) && (exists t :: Holds(data, entries[1], t))
                  && Unread(data, entries[2], e))
              || ((exists t :: Holds(data, entries[0], t)) && (exists t :: Holds(data, entries[1], t))
                  && (exists t :: Holds(data, entries[2], t)) && Unread(data, entries[3], e)) ::
              FirstUnread(data, entries, e)
  {
    hide Holds, Unread;
  }

  /** The fixed fields of object info; the reserved byte is skipped. */
  method ReadObjectFields(cursor: Cursor)
    returns (storageId: u32, objectFormat: u16, protectionStatus: byte, objectSize: u64, thumbSize: u32)
    requires cursor.position == 8 && |cursor.data| >= 28
    modifies cursor
    ensures storageId == U32At(cursor.data, 8) && objectFormat == U16At(cursor.data, 12)
    ensures protectionStatus == cursor.data[14]
    ensures objectSize == U64At(cursor.data, 16) && thumbSize == U32At(cursor.data, 24)
    ensures cursor.position == 28
  {
    hide U16At, U32At, U64At;
    var a := cursor.ReadU32();
    var b := cursor.ReadU16();
    var c := cursor.ReadU8();
    cursor.position := cursor.position + 1;
    var d := cursor.ReadU64();
    var e := cursor.ReadU32();
    return a.value, b.value, c.value, d.value, e.value;
  }

  /** `parse_object_info`, reading through a cursor. */
  method ParseObjectInfo(data: bytes, handle: u32) returns (r: Result<ObjectInfo>)
    ensures r == ObjectInfoAt(data, handle)
    ensures r.Ok? ==> ObjectInfoIn(data, handle, r.value)
    ensures r.Err? && |data| >= 64 ==> FirstUnread(data, [28, 36, 44, 52], r.error)
  {
    ObjectInfoMeans(data, handle);
    hide ExtractString, U16At, U32At, U64At, ObjectInfoIn, FirstUnread;
    if |data| < 64 {
      return Err(ProtocolError(TooShort));
    }
    // None of the reads can fail now.
    var cursor := new Cursor(data);
    cursor.position := 8;
    var storageId, objectFormat, protectionStatus, objectSize, thumbSize := ReadObjectFields(cursor);
    var filenameEntry := ReadEntry(cursor);
    var captureDateEntry := ReadEntry(cursor);
    var modificationDateEntry := ReadEntry(cursor);
    var keywordsEntry := ReadEntry(cursor);
    var filename :- ExtractString(data, filenameEntry.value.0, filenameEntry.value.1);
    var captureDate :- ExtractString(data, captureDateEntry.value.0, captureDateEntry.value.1);
    var modificationDate :- ExtractString(data, modificationDateEntry.value.0, modificationDateEntry.value.1);
    var keywords :- ExtractString(data, keywordsEntry.value.0, keywordsEntry.value.1);
    return Ok(ObjectInfo(handle, storageId, objectFormat, protectionStatus, objectSize, thumbSize,
                         filename, captureDate, modificationDate, keywords));
  }

  /** Header, fixed fields, string table, strings one after another. */
  function ObjectInfoParts(header: bytes, reserved: byte, o: ObjectInfo): seq<bytes>
  {
    var a := 60;
    var b := a + |o.filename|;
    var c := b + |o.captureDate|;
    var d := c + |o.modificationDate|;
    [header, Write32(o.storageId), Write16(o.objectFormat), [o.protectionStatus], [reserved],
     Write64(o.objectSize), Write32(o.thumbSize),
     Entry(a, o.filename), Entry(b, o.captureDate), Entry(c, o.modificationDate), Entry(d, o.keywords),
     o.filename, o.captureDate, o.modificationDate, o.keywords]
  }

  lemma ObjectInfoStarts(header: bytes, reserved: byte, o: ObjectInfo)
    requires |header| == 8
    ensures var p := ObjectInfoParts(header, reserved, o);
            && Start(p, 1) == 8 && Start(p, 2) == 12 && Start(p, 3) == 14 && Start(p, 5) == 16 && Start(p, 6) == 24
            && Start(p, 7) == 28 && Start(p, 8) == 36 && Start(p, 9) == 44 && Start(p, 10) == 52 && Start(p, 11) == 60
            && Start(p, 12) == 60 + |o.filename| && Start(p, 13) == Start(p, 12) + |o.captureDate|
            && Start(p, 14) == Start(p, 13) + |o.modificationDate| && Start(p, 15) == Start(p, 14) + |o.keywords|
  {
    hide Write16, Write32, Write64, Entry;
    var p := ObjectInfoParts(header, reserved, o);
    assert Start(p, 0) == 0;
    assert Start(p, 1) == 8;
    assert Start(p, 2) == 12;
    assert Start(p, 3) == 14;
    assert Start(p, 4) == 15;
    assert Start(p, 5) == 16;
    assert Start(p, 6) == 24;
    assert Start(p, 7) == 28;
    assert Start(p, 8) == 36;
    assert Start(p, 9) == 44;
    assert Start(p, 10) == 52;
    assert Start(p, 11) == 60;
  }

  lemma ObjectFieldsPlaced(header: bytes, reserved: byte, o: ObjectInfo)
    requires |header| == 8
    ensures var s := Cat(ObjectInfoParts(header, reserved, o));
            && |s| == 60 + |o.filename| + |o.captureDate| + |o.modificationDate| + |o.keywords|
            && U32At(s, 8) == o.storageId && U16At(s, 12) == o.objectFormat && s[14] == o.protectionStatus
            && U64At(s, 16) == o.objectSize && U32At(s, 24) == o.thumbSize
  {
    hide Cat, Start, Write16, Write32, Write64, Entry, U16At, U32At, U64At;
    var p := ObjectInfoParts(header, reserved, o);
    var s := Cat(p);
    ObjectInfoStarts(header, reserved, o);
    Placed(p, 0);
    Placed(p, 1);
    Read32(s, 8, o.storageId);
    Placed(p, 2);
    Read16(s, 12, o.objectFormat);
    Placed(p, 3);
    assert s[14] == s[14..15][0];
    Placed(p, 5);
    Read64(s, 16, o.objectSize);
    Placed(p, 6);
    Read32(s, 24, o.thumbSize);
  }

  lemma ObjectStringsPlaced(header: bytes, reserved: byte, o: ObjectInfo)
    requires |header| == 8
    requires 60 + |o.filename| + |o.captureDate| + |o.modificationDate| + |o.keywords| < 0x1_0000_0000
    requires Carried(o.filename) && Carried(o.captureDate) && Carried(o.modificationDate) && Carried(o.keywords)
    ensures var s := Cat(ObjectInfoParts(header, reserved, o));
            && |s| >= 60
            && StringAt(s, 28) == Ok(o.filename) && StringAt(s, 36) == Ok(o.captureDate)
            && StringAt(s, 44) == Ok(o.modificationDate) && StringAt(s, 52) == Ok(o.keywords)
  {
    hide Cat, Start, Write16, Write32, Write64, Entry, StringAt, Carried;
    var p := ObjectInfoParts(header, reserved, o);
    var s := Cat(p);
    ObjectInfoStarts(header, reserved, o);
    Placed(p, 7);
    Placed(p, 11);
    StringAtEntry(s, 28, 60, o.filename);
    Placed(p, 8);
    Placed(p, 12);
    StringAtEntry(s, 36, Start(p, 12), o.captureDate);
    Placed(p, 9);
    Placed(p, 13);
    StringAtEntry(s, 44, Start(p, 13), o.modificationDate);
    Placed(p, 10);
    Placed(p, 14);
    StringAtEntry(s, 52, Start(p, 14), o.keywords);
  }

  /** The parser inverts the encoder on exactly the encodings of at least 64 bytes. */
  lemma ObjectInfoRoundTrip(header: bytes, reserved: byte, o: ObjectInfo)
    requires |header| == 8
    requires 60 + |o.filename| + |o.captureDate| + |o.modificationDate| + |o.keywords| < 0x1_0000_0000
    requires Carried(o.filename) && Carried(o.captureDate) && Carried(o.modificationDate) && Carried(o.keywords)
    ensures ObjectInfoAt(Cat(ObjectInfoParts(header, reserved, o)), o.handle) == Ok(o) <==>
            |o.filename| + |o.captureDate| + |o.modificationDate| + |o.keywords| >= 4
  {
    hide Cat, ObjectInfoParts, U16At, U32At, U64At, StringAt, Carried;
    ObjectFieldsPlaced(header, reserved, o);
    ObjectStringsPlaced(header, reserved, o);
  }

  /** A successful parse is unchanged by trailing bytes. */
  lemma ObjectInfoStable(data: bytes, more: bytes, handle: u32)
    requires ObjectInfoAt(data, handle).Ok?
    ensures ObjectInfoAt(data + more, handle) == ObjectInfoAt(data, handle)
  {
    hide StringAt;
    StringAtStable(data, more, 28);
    StringAtStable(data, more, 36);
    StringAtStable(data, more, 44);
    StringAtStable(data, more, 52);
  }

  // ---------- device info ----------

  datatype DeviceInfo = DeviceInfo(manufacturer: bytes, model: bytes, deviceVersion: bytes, serialNumber: bytes,
                                   operations: seq<u16>)

  /** The layout that `parse_device_info` reads: string table, operation list, strings. */
  function DeviceInfoAt(data: bytes): Result<DeviceInfo>
  {
    if |data| < 24 then Err(ProtocolError(TooShort)) else
    if |data| < 42 || |data| < 42 + 2 * U16At(data, 40) then Err(Io(UnexpectedEof)) else
    var manufacturer :- StringAt(data, 8);
    var model :- StringAt(data, 16);
    var deviceVersion :- StringAt(data, 24);
    var serialNumber :- StringAt(data, 32);
    Ok(DeviceInfo(manufacturer, model, deviceVersion, serialNumber, HalfWordsAt(data, 42, U16At(data, 40))))
  }

  /** Device info as it stands in the data. */
  predicate DeviceInfoIn(data: bytes, d: DeviceInfo) {
    && |data| >= 42 && |d.operations| == U16At(data, 40) && |data| >= 42 + 2 * |d.operations|
    && (forall k | 0 <= k < |d.operations| :: d.operations[k] == U16At(data, 42 + 2 * k))
    && Holds(data, 8, d.manufacturer) && Holds(data, 16, d.model)
    && Holds(data, 24, d.deviceVersion) && Holds(data, 32, d.serialNumber)
  }

  lemma DeviceInfoMeans(data: bytes)
    ensures match DeviceInfoAt(data)
            case Ok(d) => DeviceInfoIn(data, d)
            case Err(e) =>
              if |data| < 24 then e == ProtocolError(TooShort)
              else if |data| < 42 || |data| < 42 + 2 * U16At(data, 40) then e == Io(UnexpectedEof)
              else FirstUnread(data, [8, 16, 24, 32], e)
  {
    hide StringAt, Holds, Unread, U16At, U32At;
    if |data| >= 42 {
      StringMeans(data, 8);
      StringMeans(data, 16);
      StringMeans(data, 24);
      StringMeans(data, 32);
      FourEntries(data, [8, 16, 24, 32]);
    }
  }

  /** The loop over the operation list. */
  method ReadHalfWordList(cursor: Cursor, count: nat) returns (r: Result<seq<u16>>)
    requires cursor.position <= |cursor.data|
    modifies cursor
    ensures r.Ok? <==> old(cursor.position) + 2 * count <= |cursor.data|
    ensures r.Ok? ==> r.value == HalfWordsAt(cursor.data, old(cursor.position), count)
    ensures r.Err? ==> r.error == Io(UnexpectedEof)
  {
    var values: seq<u16> := [];
    for k := 0 to count
      invariant cursor.position == old(cursor.position) + 2 * k <= |cursor.data|
      invariant values == HalfWordsAt(cursor.data, old(cursor.position), k)
    {
      var v :- cursor.ReadU16();
      values := values + [v];
    }
    return Ok(values);
  }

  /** `parse_device_info`. */
  method ParseDeviceInfo(data: bytes) returns (r: Result<DeviceInfo>)
    ensures r == DeviceInfoAt(data)
    ensures r.Ok? ==> DeviceInfoIn(data, r.value)
    ensures r.Err? && |data| >= 42 && |data| >= 42 + 2 * U16At(data, 40) ==> FirstUnread(data, [8, 16, 24, 32], r.error)
  {
    DeviceInfoMeans(data);
    hide ExtractString, U16At, U32At, HalfWordsAt, DeviceInfoIn, FirstUnread;
    if |data| < 24 {
      return Err(ProtocolError(TooShort));
    }
    var cursor := new Cursor(data);
    cursor.position := 8;
    var manufacturerEntry := ReadEntry(cursor);
    var modelEntry := ReadEntry(cursor);
    // From here on the data may be too short.
    var versionEntry :- ReadEntry(cursor);
    var serialEntry :- ReadEntry(cursor);
    var count :- cursor.ReadU16();
    var operations :- ReadHalfWordList(cursor, count);
    var manufacturer :- ExtractString(data, manufacturerEntry.value.0, manufacturerEntry.value.1);
    var model :- ExtractString(data, modelEntry.value.0, modelEntry.value.1);
    var version :- ExtractString(data, versionEntry.0, versionEntry.1);
    var serial :- ExtractString(data, serialEntry.0, serialEntry.1);
    return Ok(DeviceInfo(manufacturer, model, version, serial, operations));
  }

  function DeviceInfoLength(d: DeviceInfo): nat
  {
    42 + 2 * |d.operations| + |d.manufacturer| + |d.model| + |d.deviceVersion| + |d.serialNumber|
  }

  function DeviceInfoParts(header: bytes, d: DeviceInfo): seq<bytes>
  {
    var a := 42 + 2 * |d.operations|;
    var b := a + |d.manufacturer|;
    var c := b + |d.model|;
    var e := c + |d.deviceVersion|;
    [header, Entry(a, d.manufacturer), Entry(b, d.model), Entry(c, d.deviceVersion), Entry(e, d.serialNumber),
     Write16(|d.operations| % 0x1_0000), WriteHalfWords(d.operations),
     d.manufacturer, d.model, d.deviceVersion, d.serialNumber]
  }

  lemma DeviceInfoStarts(header: bytes, d: DeviceInfo)
    requires |header| == 8
    ensures var p := DeviceInfoParts(header, d);
            && Start(p, 1) == 8 && Start(p, 2) == 16 && Start(p, 3) == 24 && Start(p, 4) == 32 && Start(p, 5) == 40
            && Start(p, 6) == 42 && Start(p, 7) == 42 + 2 * |d.operations|
            && Start(p, 8) == Start(p, 7) + |d.manufacturer| && Start(p, 9) == Start(p, 8) + |d.model|
            && Start(p, 10) == Start(p, 9) + |d.deviceVersion| && Start(p, 11) == Start(p, 10) + |d.serialNumber|
  {
    hide Write16, WriteHalfWords, Entry;
    var p := DeviceInfoParts(header, d);
    assert Start(p, 0) == 0;
    assert Start(p, 1) == 8;
    assert Start(p, 2) == 16;
    assert Start(p, 3) == 24;
    assert Start(p, 4) == 32;
    assert Start(p, 5) == 40;
    assert Start(p, 6) == 42;
  }

  /** Where the encoder puts the count and the strings. */
  lemma DeviceInfoPlaced(header: bytes, d: DeviceInfo)
    requires |header| == 8 && DeviceInfoLength(d) < 0x1_0000_0000
    requires Carried(d.manufacturer) && Carried(d.model) && Carried(d.deviceVersion) && Carried(d.serialNumber)
    ensures var s := Cat(DeviceInfoParts(header, d));
            && |s| >= 42 + 2 * |d.operations| && U16At(s, 40) == |d.operations| % 0x1_0000
            && StringAt(s, 8) == Ok(d.manufacturer) && StringAt(s, 16) == Ok(d.model)
            && StringAt(s, 24) == Ok(d.deviceVersion) && StringAt(s, 32) == Ok(d.serialNumber)
            && s[42..42 + 2 * |d.operations|] == WriteHalfWords(d.operations)
  {
    hide Cat, Start, Write16, WriteHalfWords, Entry, U16At, StringAt, Carried;
    var p := DeviceInfoParts(header, d);
    var s := Cat(p);
    DeviceInfoStarts(header, d);
    Placed(p, 5);
    Read16(s, 40, |d.operations| % 0x1_0000);
    Placed(p, 6);
    Placed(p, 1);
    Placed(p, 7);
    StringAtEntry(s, 8, Start(p, 7), d.manufacturer);
    Placed(p, 2);
    Placed(p, 8);
    StringAtEntry(s, 16, Start(p, 8), d.model);
    Placed(p, 3);
    Placed(p, 9);
    StringAtEntry(s, 24, Start(p, 9), d.deviceVersion);
    Placed(p, 4);
    Placed(p, 10);
    StringAtEntry(s, 32, Start(p, 10), d.serialNumber);
  }

  /** Device info comes back whole exactly for the operation lists whose length fits 16 bits. */
  lemma DeviceInfoRoundTrip(header: bytes, d: DeviceInfo)
    requires |header| == 8 && DeviceInfoLength(d) < 0x1_0000_0000
    requires Carried(d.manufacturer) && Carried(d.model) && Carried(d.deviceVersion) && Carried(d.serialNumber)
    ensures DeviceInfoAt(Cat(DeviceInfoParts(header, d))) == Ok(d) <==> |d.operations| < 0x1_0000
  {
    hide Cat, DeviceInfoParts, WriteHalfWords, U16At, HalfWordsAt, StringAt, Carried;
    DeviceInfoPlaced(header, d);
    if |d.operations| < 0x1_0000 {
      ReadHalfWords(Cat(DeviceInfoParts(header, d)), 42, d.operations);
    }
  }

  lemma DeviceInfoStable(data: bytes, more: bytes)
    requires DeviceInfoAt(data).Ok?
    ensures DeviceInfoAt(data + more) == DeviceInfoAt(data)
  {
    hide StringAt;
    StringAtStable(data, more, 8);
    StringAtStable(data, more, 16);
    StringAtStable(data, more, 24);
    StringAtStable(data, more, 32);
    assert HalfWordsAt(data + more, 42, U16At(data, 40)) == HalfWordsAt(data, 42, U16At(data, 40));
  }

  // ---------- storage info ----------

  datatype StorageInfo = StorageInfo(storageId: u32, storageType: u16, filesystemType: u16, accessCapability: u16,
                                     maxCapacity: u64, freeSpaceInBytes: u64, freeSpaceInObjects: u32,
                                     storageDescription: bytes, volumeLabel: bytes)

  /** The layout that `parse_storage_info` reads. */
  function StorageInfoAt(data: bytes): Result<StorageInfo>
  {
    if |data| < 40 then Err(ProtocolError(TooShort)) else
    if |data| < 54 then Err(Io(UnexpectedEof)) else
    var description :- StringAt(data, 38);
    var volume :- StringAt(data, 46);
    Ok(StorageInfo(U32At(data, 8), U16At(data, 12), U16At(data, 14), U16At(data, 16), U64At(data, 18),
                   U64At(data, 26), U32At(data, 34), description, volume))
  }

  /** Storage info as it stands in the data. */
  predicate StorageInfoIn(data: bytes, o: StorageInfo) {
    && |data| >= 54
    && o.storageId == U32At(data, 8) && o.storageType == U16At(data, 12) && o.filesystemType == U16At(data, 14)
    && o.accessCapability == U16At(data, 16) && o.maxCapacity == U64At(data, 18)
    && o.freeSpaceInBytes == U64At(data, 26) && o.freeSpaceInObjects == U32At(data, 34)
    && Holds(data, 38, o.storageDescription) && Holds(data, 46, o.volumeLabel)
  }

  lemma StorageInfoMeans(data: bytes)
    ensures match StorageInfoAt(data)
            case Ok(o) => StorageInfoIn(data, o)
            case Err(e) =>
              if |data| < 40 then e == ProtocolError(TooShort)
              else if |data| < 54 then e == Io(UnexpectedEof)
              else FirstUnread(data, [38, 46], e)
  {
    hide StringAt, Holds, Unread, U16At, U32At, U64At;
    if |data| >= 54 {
      StringMeans(data, 38);
      StringMeans(data, 46);
      var entries := [38, 46];
      assert entries[0] == 38 && entries[1] == 46;
    }
  }

  /** The fixed fields of storage info, the strings still empty. */
  method ReadStorageFields(cursor: Cursor) returns (o: StorageInfo)
    requires cursor.position == 8 && |cursor.data| >= 38
    modifies cursor
    ensures o == StorageInfo(U32At(cursor.data, 8), U16At(cursor.data, 12), U16At(cursor.data, 14),
                             U16At(cursor.data, 16), U64At(cursor.data, 18), U64At(cursor.data, 26),
                             U32At(cursor.data, 34), [], [])
    ensures cursor.position == 38
  {
    hide U16At, U32At, U64At;
    var storageId := cursor.ReadU32();
    var storageType := cursor.ReadU16();
    var filesystemType := cursor.ReadU16();
    var accessCapability := cursor.ReadU16();
    var maxCapacity := cursor.ReadU64();
    var freeSpaceInBytes := cursor.ReadU64();
    var freeSpaceInObjects := cursor.ReadU32();
    return StorageInfo(storageId.value, storageType.value, filesystemType.value, accessCapability.value,
                       maxCapacity.value, freeSpaceInBytes.value, freeSpaceInObjects.value, [], []);
  }

  /** `parse_storage_info`. */
  method ParseStorageInfo(data: bytes) returns (r: Result<StorageInfo>)
    ensures r == StorageInfoAt(data)
    ensures r.Ok? ==> StorageInfoIn(data, r.value)
    ensures r.Err? && |data| >= 54 ==> FirstUnread(data, [38, 46], r.error)
  {
    StorageInfoMeans(data);
    hide ExtractString, U16At, U32At, U64At, StorageInfoIn, FirstUnread;
    if |data| < 40 {
      return Err(ProtocolError(TooShort));
    }
    var cursor := new Cursor(data);
    cursor.position := 8;
    var fixed := ReadStorageFields(cursor);
    // From here on the data may be too short.
    var descriptionEntry :- ReadEntry(cursor);
    var labelEntry :- ReadEntry(cursor);
    var description :- ExtractString(data, descriptionEntry.0, descriptionEntry.1);
    var volumeLabel :- ExtractString(data, labelEntry.0, labelEntry.1);
    return Ok(fixed.(storageDescription := description, volumeLabel := volumeLabel));
  }

  function StorageInfoParts(header: bytes, o: StorageInfo): seq<bytes>
  {
    [header, Write32(o.storageId), Write16(o.storageType), Write16(o.filesystemType), Write16(o.accessCapability),
     Write64(o.maxCapacity), Write64(o.freeSpaceInBytes), Write32(o.freeSpaceInObjects),
     Entry(54, o.storageDescription), Entry(54 + |o.storageDescription|, o.volumeLabel),
     o.storageDescription, o.volumeLabel]
  }

  lemma StorageInfoStarts(header: bytes, o: StorageInfo)
    requires |header| == 8
    ensures var p := StorageInfoParts(header, o);
            && Start(p, 1) == 8 && Start(p, 2) == 12 && Start(p, 3) == 14 && Start(p, 4) == 16 && Start(p, 5) == 18
            && Start(p, 6) == 26 && Start(p, 7) == 34 && Start(p, 8) == 38 && Start(p, 9) == 46 && Start(p, 10) == 54
            && Start(p, 11) == 54 + |o.storageDescription| && Start(p, 12) == Start(p, 11) + |o.volumeLabel|
  {
    hide Write16, Write32, Write64, Entry;
    var p := StorageInfoParts(header, o);
    assert Start(p, 0) == 0;
    assert Start(p, 1) == 8;
    assert Start(p, 2) == 12;
    assert Start(p, 3) == 14;
    assert Start(p, 4) == 16;
    assert Start(p, 5) == 18;
    assert Start(p, 6) == 26;
    assert Start(p, 7) == 34;
    assert Start(p, 8) == 38;
    assert Start(p, 9) == 46;
    assert Start(p, 10) == 54;
  }

  lemma StorageInfoRoundTrip(header: bytes, o: StorageInfo)
    requires |header| == 8 && 54 + |o.storageDescription| + |o.volumeLabel| < 0x1_0000_0000
    requires Carried(o.storageDescription) && Carried(o.volumeLabel)
    ensures StorageInfoAt(Cat(StorageInfoParts(header, o))) == Ok(o)
  {
    hide Cat, Start, Write16, Write32, Write64, Entry, U16At, U32At, U64At, StringAt, Carried;
    var p := StorageInfoParts(header, o);
    var s := Cat(p);
    StorageInfoStarts(header, o);
    Placed(p, 1);
    Read32(s, 8, o.storageId);
    Placed(p, 2);
    Read16(s, 12, o.storageType);
    Placed(p, 3);
    Read16(s, 14, o.filesystemType);
    Placed(p, 4);
    Read16(s, 16, o.accessCapability);
    Placed(p, 5);
    Read64(s, 18, o.maxCapacity);
    Placed(p, 6);
    Read64(s, 26, o.freeSpaceInBytes);
    Placed(p, 7);
    Read32(s, 34, o.freeSpaceInObjects);
    Placed(p, 8);
    Placed(p, 10);
    StringAtEntry(s, 38, 54, o.storageDescription);
    Placed(p, 9);
    Placed(p, 11);
    StringAtEntry(s, 46, Start(p, 11), o.volumeLabel);
  }

  lemma StorageInfoStable(data: bytes, more: bytes)
    requires StorageInfoAt(data).Ok?
    ensures StorageInfoAt(data + more) == StorageInfoAt(data)
  {
    hide StringAt;
    StringAtStable(data, more, 38);
    StringAtStable(data, more, 46);
  }

  // ---------- lists of ids ----------

  /** The layout of `parse_storage_ids` and `parse_object_handles`: a count, then the values. */
  function IdListAt(data: bytes): Result<seq<u32>>
  {
    if |data| < 10 then Err(ProtocolError(TooShort)) else
    if |data| < 12 || |data| < 12 + 4 * U32At(data, 8) then Err(Io(UnexpectedEof)) else
    Ok(WordsAt(data, 12, U32At(data, 8)))
  }

  /** Which lists are read, entry by entry, and how the others fail. */
  lemma IdListMeans(data: bytes)
    ensures match IdListAt(data)
            case Ok(ids) =>
              && |data| >= 12 && |ids| == U32At(data, 8) && |data| >= 12 + 4 * |ids|
              && forall k | 0 <= k < |ids| :: ids[k] == U32At(data, 12 + 4 * k)
            case Err(e) =>
              if |data| < 10 then e == ProtocolError(TooShort)
              else e == Io(UnexpectedEof) && (|data| < 12 || |data| < 12 + 4 * U32At(data, 8))
  {
  }

  /** Trailing bytes do not matter. */
  lemma IdListStable(data: bytes, more: bytes)
    requires IdListAt(data).Ok?
    ensures IdListAt(data + more) == IdListAt(data)
  {
    U32Stable(data, more, 8);
    var ids, ids' := IdListAt(data).value, WordsAt(data + more, 12, U32At(data, 8));
    forall k | 0 <= k < |ids| ensures ids[k] == ids'[k] {
      U32Stable(data, more, 12 + 4 * k);
    }
    assert U32At(data + more, 8) == U32At(data, 8) && ids == ids';
  }

  /** `parse_storage_ids`, and equally `parse_object_handles`. */
  method ParseIdList(data: bytes) returns (r: Result<seq<u32>>)
    ensures r == IdListAt(data)
  {
    if |data| < 10 {
      return Err(ProtocolError(TooShort));
    }
    var cursor := new Cursor(data);
    cursor.position := 8;
    var count :- cursor.ReadU32();
    var ids: seq<u32> := [];
    for k := 0 to count
      invariant fresh(cursor) && cursor.data == data && |ids| == k && cursor.position == 12 + 4 * k <= |data|
      invariant ids == WordsAt(data, 12, k)
    {
      var id :- cursor.ReadU32();
      ids := ids + [id];
    }
    return Ok(ids);
  }

  /** The parser inverts the encoder for every list, and fails on every shortened encoding. */
  lemma IdListRoundTrip(header: bytes, ids: seq<u32>, k: nat)
    requires |header| == 8 && |ids| < 0x1_0000_0000 && k <= 12 + 4 * |ids|
    ensures var s := header + Write32(|ids|) + WriteWords(ids);
            && IdListAt(s) == Ok(ids)
            && (IdListAt(s[..k]).Ok? <==> k == |s|)
  {
    var s := header + Write32(|ids|) + WriteWords(ids);
    assert s[8..12] == Write32(|ids|);
    Read32(s, 8, |ids|);
    assert s[12..12 + 4 * |ids|] == WriteWords(ids);
    ReadWords(s, 12, ids);
    if k >= 12 {
      assert s[..k][8..12] == Write32(|ids|);
      Read32(s[..k], 8, |ids|);
    }
  }
}
