/** The bounded search and the directory checks of scripts/release/artifacts.py,
    on the bytes of a wheel (sections 4.3.14 to 4.3.16 of PKWARE's APPNOTE.TXT). */
module ZipDirectory {
  import opened Basics

  const EOCD_SIGNATURE: Bytes := [0x50, 0x4B, 0x05, 0x06]
  const ZIP64_EOCD_SIGNATURE: Bytes := [0x50, 0x4B, 0x06, 0x06]
  const ZIP64_LOCATOR_SIGNATURE: Bytes := [0x50, 0x4B, 0x06, 0x07]
  const EOCD_MIN_BYTES := 22
  const EOCD_MAX_COMMENT_BYTES := 65_535
  const ZIP64_LOCATOR_BYTES := 20
  const ZIP64_EOCD_MIN_BYTES := 56
  const MAX_ZIP64_EOCD_BYTES := 4096
  const ZIP16_SENTINEL := 0xFFFF
  const ZIP32_SENTINEL := 0xFFFF_FFFF
  const MAX_ARTIFACT_BYTES := 64 * 1024 * 1024
  const MAX_ARCHIVE_MEMBERS := 10_000
  const MAX_CENTRAL_DIRECTORY_BYTES := 8 * 1024 * 1024
  const ENTRY_MIN_BYTES := 46

  // ---------------------------------------------------------------------
  // Little-endian numbers

  function Pow256(width: nat): nat {
    if width == 0 then 1 else 256 * Pow256(width - 1)
  }

  /** The number in some bytes, least significant first. */
  function Number(data: Bytes): nat {
    if data == [] then 0 else data[0] as int + 256 * Number(data[1..])
  }

  function Unpack(data: Bytes, offset: nat, width: nat): nat
    requires offset + width <= |data|
  {
    Number(data[offset..offset + width])
  }

  function Pack(value: nat, width: nat): (data: Bytes)
    ensures |data| == width
  {
    if width == 0 then [] else [(value % 256) as Byte] + Pack(value / 256, width - 1)
  }

  lemma {:induction false} NumberBound(data: Bytes)
    ensures Number(data) < Pow256(|data|)
  {
    if data != [] {
      NumberBound(data[1..]);
    }
  }

  lemma {:induction false} NumberPack(value: nat, width: nat)
    requires value < Pow256(width)
    ensures Number(Pack(value, width)) == value
    decreases width
  {
    if width > 0 {
      NumberPack(value / 256, width - 1);
      assert Pack(value, width)[1..] == Pack(value / 256, width - 1);
    }
  }

  lemma UnpackSlice(data: Bytes, start: nat, end: nat, offset: nat, width: nat)
    requires start <= end <= |data| && offset + width <= end - start
    ensures Unpack(data[start..end], offset, width) == Unpack(data, start + offset, width)
  {
    var one, other := data[start..end][offset..offset + width], data[start + offset..start + offset + width];
    assert forall i :: 0 <= i < width ==> one[i] == other[i] == data[start + offset + i];
    assert one == other;
  }

  // ---------------------------------------------------------------------
  // The search

  predicate SignatureAt(data: Bytes, offset: nat) {
    offset + 4 <= |data| && data[offset..offset + 4] == EOCD_SIGNATURE
  }

  /** `data.rfind(EOCD_SIGNATURE, 0, end)`. */
  function LastSignature(data: Bytes, end: nat): (found: Option<nat>)
    requires end <= |data|
    ensures found.Some? ==> found.value + 4 <= end && SignatureAt(data, found.value)
    ensures forall offset: nat :: offset + 4 <= end && SignatureAt(data, offset) ==>
              found.Some? && offset <= found.value
  {
    if end < 4 then None
    else if SignatureAt(data, end - 4) then Some(end - 4)
    else LastSignature(data, end - 1)
  }

  /** The signature cannot overlap itself. */
  lemma NoOverlap(data: Bytes, one: nat, other: nat)
    requires SignatureAt(data, one) && SignatureAt(data, other) && one < other
    ensures one + 4 <= other
  {
    assert data[one..one + 4][0] == 0x50 && data[one..one + 4][1] == 0x4B
        && data[one..one + 4][2] == 0x05 && data[one..one + 4][3] == 0x06;
    assert data[other..other + 4][0] == 0x50;
    assert data[other] == 0x50;
  }

  /** A record whose comment ends exactly at the end of the data. */
  predicate EndsAt(data: Bytes, offset: nat) {
    && offset + EOCD_MIN_BYTES <= |data| && SignatureAt(data, offset)
    && offset + EOCD_MIN_BYTES + Unpack(data, offset + 20, 2) == |data|
  }

  ghost predicate IsLastEnd(data: Bytes, offset: nat) {
    EndsAt(data, offset) && forall other: nat :: EndsAt(data, other) ==> other <= offset
  }

  /** The greatest offset with such a record, or none exactly when there is none. */
  method FindEocd(tail: Bytes) returns (found: Option<nat>)
    ensures found.Some? ==> IsLastEnd(tail, found.value)
    ensures found.None? ==> forall offset: nat :: !EndsAt(tail, offset)
  {
    var searchEnd := |tail|;
    while searchEnd > 0
      invariant searchEnd <= |tail|
      invariant forall offset: nat :: EndsAt(tail, offset) ==> offset + 4 <= searchEnd
    {
      var relative := LastSignature(tail, searchEnd);
      if relative.None? {
        return None;
      }
      if EOCD_MIN_BYTES <= |tail| - relative.value {
        if relative.value + EOCD_MIN_BYTES + Unpack(tail, relative.value + 20, 2) == |tail| {
          return relative;
        }
      }
      forall offset: nat | EndsAt(tail, offset)
        ensures offset + 4 <= relative.value
      {
        NoOverlap(tail, offset, relative.value);
      }
      searchEnd := relative.value;
    }
    found := None;
  }

  /** A record at the end of the file lies in the window that is searched. */
  lemma WindowIsEnough(file: Bytes, start: nat, offset: nat)
    requires start <= |file| && (start == 0 || |file| - start == EOCD_MIN_BYTES + EOCD_MAX_COMMENT_BYTES)
    requires EndsAt(file, offset)
    ensures start <= offset && EndsAt(file[start..], offset - start)
  {
    NumberBound(file[offset + 20..offset + 22]);
    assert Pow256(2) == 65536;
    assert file[start..|file|] == file[start..];
    UnpackSlice(file, start, |file|, offset - start + 20, 2);
    assert file[start..][offset - start..offset - start + 4] == file[offset..offset + 4];
  }

  lemma WindowIsFaithful(file: Bytes, start: nat, relative: nat)
    requires start <= |file| && EndsAt(file[start..], relative)
    ensures EndsAt(file, start + relative)
  {
    assert file[start..|file|] == file[start..];
    UnpackSlice(file, start, |file|, relative + 20, 2);
    assert file[start..][relative..relative + 4] == file[start + relative..start + relative + 4];
  }

  /** The search over the window finds the last record of the whole file. */
  method FindInFile(file: Bytes) returns (found: Option<nat>)
    ensures found.Some? ==> IsLastEnd(file, found.value)
    ensures found.None? <==> forall offset: nat :: !EndsAt(file, offset)
  {
    var size := if |file| < EOCD_MIN_BYTES + EOCD_MAX_COMMENT_BYTES then |file|
                else EOCD_MIN_BYTES + EOCD_MAX_COMMENT_BYTES;
    var start := |file| - size;
    var relative := FindEocd(file[start..]);
    forall offset: nat | EndsAt(file, offset)
      ensures start <= offset && EndsAt(file[start..], offset - start)
    {
      WindowIsEnough(file, start, offset);
    }
    if relative.Some? {
      WindowIsFaithful(file, start, relative.value);
      found := Some(start + relative.value);
    } else {
      found := None;
    }
  }

  // ---------------------------------------------------------------------
  // The directory

  /** What a wheel declares: where its central directory lies, how large it is,
      how many entries it has, its ZIP64 record when one is used, its end record. */
  datatype Layout = Layout(offset: nat, size: nat, count: nat, zip64: Option<nat>, eocd: nat)

  /** The end record is about one disk. */
  predicate OneDisk(file: Bytes, eocd: nat)
    requires eocd + EOCD_MIN_BYTES <= |file|
  {
    Unpack(file, eocd + 4, 2) == 0 && Unpack(file, eocd + 6, 2) == 0
  }

  predicate UsesZip64(file: Bytes, eocd: nat)
    requires eocd + EOCD_MIN_BYTES <= |file|
  {
    || Unpack(file, eocd + 8, 2) == ZIP16_SENTINEL || Unpack(file, eocd + 10, 2) == ZIP16_SENTINEL
    || Unpack(file, eocd + 12, 4) == ZIP32_SENTINEL || Unpack(file, eocd + 16, 4) == ZIP32_SENTINEL
  }

  /** The locator right before the end record, for a single disk. */
  predicate LocatorAt(file: Bytes, locator: nat, record: nat) {
    && locator + ZIP64_LOCATOR_BYTES <= |file| && file[locator..locator + 4] == ZIP64_LOCATOR_SIGNATURE
    && Unpack(file, locator + 4, 4) == 0 && Unpack(file, locator + 8, 8) == record && Unpack(file, locator + 16, 4) == 1
  }

  /** A ZIP64 record that ends exactly where the locator begins. */
  predicate RecordAt(file: Bytes, record: nat, locator: nat) {
    && record + ZIP64_EOCD_MIN_BYTES <= |file| && file[record..record + 4] == ZIP64_EOCD_SIGNATURE
    && ZIP64_EOCD_MIN_BYTES <= Unpack(file, record + 4, 8) + 12 <= MAX_ZIP64_EOCD_BYTES
    && record + Unpack(file, record + 4, 8) + 12 == locator
    && Unpack(file, record + 16, 4) == 0 && Unpack(file, record + 20, 4) == 0
    && Unpack(file, record + 24, 8) == Unpack(file, record + 32, 8)
  }

  /** The layout is what the 16-bit end record declares. */
  predicate Declares16(file: Bytes, layout: Layout)
    requires layout.eocd + EOCD_MIN_BYTES <= |file|
  {
    && layout.zip64 == None
    && Unpack(file, layout.eocd + 8, 2) == Unpack(file, layout.eocd + 10, 2) == layout.count
    && Unpack(file, layout.eocd + 12, 4) == layout.size && Unpack(file, layout.eocd + 16, 4) == layout.offset
  }

  /** The layout is what the ZIP64 record declares. */
  predicate Declares64(file: Bytes, layout: Layout) {
    && layout.zip64.Some? && ZIP64_LOCATOR_BYTES <= layout.eocd
    && var record, locator := layout.zip64.value, layout.eocd - ZIP64_LOCATOR_BYTES;
       && LocatorAt(file, locator, record) && RecordAt(file, record, locator)
       && Unpack(file, record + 32, 8) == layout.count
       && Unpack(file, record + 40, 8) == layout.size && Unpack(file, record + 48, 8) == layout.offset
  }

  predicate Declared(file: Bytes, layout: Layout) {
    && layout.eocd + EOCD_MIN_BYTES <= |file| && OneDisk(file, layout.eocd)
    && if UsesZip64(file, layout.eocd) then Declares64(file, layout) else Declares16(file, layout)
  }

  predicate WithinLimits(layout: Layout) {
    && layout.count <= MAX_ARCHIVE_MEMBERS && layout.size <= MAX_CENTRAL_DIRECTORY_BYTES
    && ENTRY_MIN_BYTES * layout.count <= layout.size
    && layout.offset + layout.size <= if layout.zip64.Some? then layout.zip64.value else layout.eocd
  }

  /** A wheel that may be opened: its last end record, or the ZIP64 record that
      one sends to, declares a directory within its limits and before both. */
  ghost predicate Laid(file: Bytes, layout: Layout) {
    && |file| <= MAX_ARTIFACT_BYTES && IsLastEnd(file, layout.eocd)
    && Declared(file, layout) && WithinLimits(layout)
  }

  /** `_read_at`: all the bytes asked for, or a failure. */
  function ReadAt(file: Bytes, offset: int, size: nat): (data: Option<Bytes>)
    ensures data.Some? <==> 0 <= offset && offset + size <= |file|
    ensures data.Some? ==> |data.value| == size
  {
    if offset < 0 || |file| < offset + size then None else Some(file[offset..offset + size])
  }

  method Zip64Directory(file: Bytes, eocd: nat) returns (layout: Option<Layout>)
    requires eocd + EOCD_MIN_BYTES <= |file|
    ensures layout.Some? ==> Declares64(file, layout.value) && layout.value.eocd == eocd
    ensures layout.None? ==> forall each :: Declares64(file, each) ==> each.eocd != eocd
  {
    var locator := ReadAt(file, eocd - ZIP64_LOCATOR_BYTES, ZIP64_LOCATOR_BYTES);
    if locator.None? {
      return None;
    }
    var start := eocd - ZIP64_LOCATOR_BYTES;
    forall offset: nat, width: nat | offset + width <= ZIP64_LOCATOR_BYTES
      ensures Unpack(locator.value, offset, width) == Unpack(file, start + offset, width)
    {
      UnpackSlice(file, start, eocd, offset, width);
    }
    assert locator.value[..4] == file[start..start + 4];
    if locator.value[..4] != ZIP64_LOCATOR_SIGNATURE || Unpack(locator.value, 4, 4) != 0
      || Unpack(locator.value, 16, 4) != 1 {
      return None;
    }
    var record := Unpack(locator.value, 8, 8);
    layout := Zip64Record(file, eocd, record);
  }

  method Zip64Record(file: Bytes, eocd: nat, record: nat) returns (layout: Option<Layout>)
    requires ZIP64_LOCATOR_BYTES <= eocd && eocd + EOCD_MIN_BYTES <= |file|
    requires LocatorAt(file, eocd - ZIP64_LOCATOR_BYTES, record)
    ensures layout.Some? ==> Declares64(file, layout.value) && layout.value.eocd == eocd
    ensures layout.None? ==> !RecordAt(file, record, eocd - ZIP64_LOCATOR_BYTES)
  {
    var header := ReadAt(file, record, ZIP64_EOCD_MIN_BYTES);
    if header.None? {
      return None;
    }
    forall offset: nat, width: nat | offset + width <= ZIP64_EOCD_MIN_BYTES
      ensures Unpack(header.value, offset, width) == Unpack(file, record + offset, width)
    {
      UnpackSlice(file, record, record + ZIP64_EOCD_MIN_BYTES, offset, width);
    }
    assert header.value[..4] == file[record..record + 4];
    if header.value[..4] != ZIP64_EOCD_SIGNATURE {
      return None;
    }
    var complete := Unpack(header.value, 4, 8) + 12;
    if complete < ZIP64_EOCD_MIN_BYTES || MAX_ZIP64_EOCD_BYTES < complete
      || record + complete != eocd - ZIP64_LOCATOR_BYTES {
      return None;
    }
    if Unpack(header.value, 16, 4) != 0 || Unpack(header.value, 20, 4) != 0
       || Unpack(header.value, 24, 8) != Unpack(header.value, 32, 8) {
      return None;
    }
    layout := Some(Layout(Unpack(header.value, 48, 8), Unpack(header.value, 40, 8), Unpack(header.value, 32, 8),
                          Some(record), eocd));
  }

  method ReadDirectory(file: Bytes, eocd: nat) returns (layout: Option<Layout>)
    requires eocd + EOCD_MIN_BYTES <= |file|
    ensures layout.Some? ==> Declared(file, layout.value) && layout.value.eocd == eocd
    ensures forall each :: Declared(file, each) && each.eocd == eocd ==> layout == Some(each)
  {
    if !OneDisk(file, eocd) {
      return None;
    }
    if UsesZip64(file, eocd) {
      layout := Zip64Directory(file, eocd);
    } else if Unpack(file, eocd + 8, 2) != Unpack(file, eocd + 10, 2) {
      return None;
    } else {
      layout := Some(Layout(Unpack(file, eocd + 16, 4), Unpack(file, eocd + 12, 4), Unpack(file, eocd + 10, 2), None,
                            eocd));
    }
  }

  /** The directory, the ZIP64 record and locator when used, the end record and its
      comment follow each other without overlap up to the end of the file. */
  predicate PartsInOrder(file: Bytes, layout: Layout) {
    && layout.offset + layout.size <= layout.eocd && layout.eocd + EOCD_MIN_BYTES <= |file|
    && |file| - layout.eocd - EOCD_MIN_BYTES == Unpack(file, layout.eocd + 20, 2)
    && (layout.zip64.Some? ==>
          && layout.offset + layout.size <= layout.zip64.value
          && layout.zip64.value + ZIP64_EOCD_MIN_BYTES <= layout.eocd - ZIP64_LOCATOR_BYTES
          && layout.zip64.value + Unpack(file, layout.zip64.value + 4, 8) + 12 + ZIP64_LOCATOR_BYTES == layout.eocd)
  }

  /** Accepts exactly the wheels that are laid out, and finds their layout: what is
      opened has its parts in order and keeps both ceilings. */
  method Prevalidate(file: Bytes) returns (layout: Option<Layout>)
    ensures layout.Some? ==> Laid(file, layout.value) && PartsInOrder(file, layout.value)
    ensures layout.Some? ==>
              && layout.value.count <= MAX_ARCHIVE_MEMBERS
              && ENTRY_MIN_BYTES * layout.value.count <= layout.value.size <= MAX_CENTRAL_DIRECTORY_BYTES
    ensures forall each :: Laid(file, each) ==> layout == Some(each)
  {
    if MAX_ARTIFACT_BYTES < |file| {
      return None;
    }
    var found := FindInFile(file);
    if found.None? {
      return None;
    }
    layout := ReadDirectory(file, found.value);
    if layout.Some? && !WithinLimits(layout.value) {
      return None;
    }
  }

  // ---------------------------------------------------------------------
  // Writing one

  /** `struct.pack`: fields one after the other. */
  datatype Field = Field(value: nat, width: nat)

  function Encode(fields: seq<Field>): Bytes {
    if fields == [] then [] else Pack(fields[0].value, fields[0].width) + Encode(fields[1..])
  }

  function Width(fields: seq<Field>, k: nat): nat
    requires k <= |fields|
  {
    if k == 0 then 0 else Width(fields, k - 1) + fields[k - 1].width
  }

  lemma {:induction false} WidthTail(fields: seq<Field>, k: nat)
    requires 0 < k <= |fields|
    ensures Width(fields, k) == fields[0].width + Width(fields[1..], k - 1)
  {
    if k > 1 {
      WidthTail(fields, k - 1);
    }
  }

  /** Every field is found where it was put. */
  lemma {:induction false} EncodedField(before: Bytes, fields: seq<Field>, after: Bytes, k: nat)
    requires k < |fields|
    ensures |before| + Width(fields, k) + fields[k].width <= |before + Encode(fields) + after|
    ensures var start := |before| + Width(fields, k);
            (before + Encode(fields) + after)[start..start + fields[k].width] == Pack(fields[k].value, fields[k].width)
    decreases k
  {
    var first := Pack(fields[0].value, fields[0].width);
    assert before + Encode(fields) + after == (before + first) + Encode(fields[1..]) + after;
    if k == 0 {
      assert (before + first)[|before|..] == first;
    } else {
      EncodedField(before + first, fields[1..], after, k - 1);
      WidthTail(fields, k);
    }
  }

  lemma FieldRead(before: Bytes, fields: seq<Field>, after: Bytes, k: nat, offset: nat)
    requires k < |fields| && Width(fields, k) == offset && fields[k].value < Pow256(fields[k].width)
    ensures |before| + offset + fields[k].width <= |before + Encode(fields) + after|
    ensures Unpack(before + Encode(fields) + after, |before| + offset, fields[k].width) == fields[k].value
  {
    EncodedField(before, fields, after, k);
    NumberPack(fields[k].value, fields[k].width);
  }

  lemma {:induction false} EncodedLength(fields: seq<Field>)
    ensures |Encode(fields)| == Width(fields, |fields|)
  {
    if fields != [] {
      EncodedLength(fields[1..]);
      WidthTail(fields, |fields|);
    }
  }

  function EndFields(count: nat, size: nat, offset: nat, comment: nat): seq<Field> {
    [Field(0x0605_4B50, 4), Field(0, 2), Field(0, 2), Field(count, 2), Field(count, 2), Field(size, 4),
     Field(offset, 4),
     Field(comment, 2)]
  }

  /** An end record; its comment follows. */
  function EndRecord(count: nat, size: nat, offset: nat, comment: Bytes): Bytes {
    Encode(EndFields(count, size, offset, |comment|)) + comment
  }

  function RecordFields(count: nat, size: nat, offset: nat): seq<Field> {
    [Field(0x0606_4B50, 4), Field(ZIP64_EOCD_MIN_BYTES - 12, 8), Field(45, 2), Field(45, 2), Field(0, 4), Field(0, 4),
     Field(count, 8), Field(count, 8), Field(size, 8), Field(offset, 8)]
  }

  function LocatorFields(record: nat): seq<Field> {
    [Field(0x0706_4B50, 4), Field(0, 4), Field(record, 8), Field(1, 4)]
  }

  lemma Signatures()
    ensures Pack(0x0605_4B50, 4) == EOCD_SIGNATURE && Pack(0x0606_4B50, 4) == ZIP64_EOCD_SIGNATURE
    ensures Pack(0x0706_4B50, 4) == ZIP64_LOCATOR_SIGNATURE
  {
  }

  lemma EndWidths(count: nat, size: nat, offset: nat, comment: nat)
    ensures var fields := EndFields(count, size, offset, comment);
            Width(fields, 0) == 0 && Width(fields, 1) == 4 && Width(fields, 2) == 6 && Width(fields, 3) == 8
              && Width(fields, 4) == 10
            && Width(fields, 5) == 12 && Width(fields, 6) == 16 && Width(fields, 7) == 20 && |Encode(fields)| == 22
  {
    var fields := EndFields(count, size, offset, comment);
    EncodedLength(fields);
    assert Width(fields, 1) == 4;
    assert Width(fields, 2) == 6;
    assert Width(fields, 4) == 10;
    assert Width(fields, 6) == 16;
    assert Width(fields, 8) == 22;
  }

  lemma RecordWidths(count: nat, size: nat, offset: nat)
    ensures var fields := RecordFields(count, size, offset);
            Width(fields, 0) == 0 && Width(fields, 1) == 4 && Width(fields, 4) == 16 && Width(fields, 5) == 20
              && Width(fields, 6) == 24
            && Width(fields, 7) == 32 && Width(fields, 8) == 40 && Width(fields, 9) == 48 && |Encode(fields)| == 56
  {
    var fields := RecordFields(count, size, offset);
    EncodedLength(fields);
    assert Width(fields, 1) == 4;
    assert Width(fields, 2) == 12;
    assert Width(fields, 4) == 16;
    assert Width(fields, 6) == 24;
    assert Width(fields, 8) == 40;
    assert Width(fields, 10) == 56;
  }

  lemma LocatorWidths(record: nat)
    ensures var fields := LocatorFields(record);
            Width(fields, 0) == 0 && Width(fields, 1) == 4 && Width(fields, 2) == 8 && Width(fields, 3) == 16
              && |Encode(fields)| == 20
  {
    var fields := LocatorFields(record);
    EncodedLength(fields);
    assert Width(fields, 1) == 4;
    assert Width(fields, 2) == 8;
    assert Width(fields, 4) == 20;
  }

  lemma EndRecordFields(body: Bytes, count: nat, size: nat, offset: nat, comment: Bytes)
    requires count < Pow256(2) && size < Pow256(4) && offset < Pow256(4) && |comment| < Pow256(2)
    ensures var file, eocd := body + EndRecord(count, size, offset, comment), |body|;
            && |file| == eocd + EOCD_MIN_BYTES + |comment| && EndsAt(file, eocd) && OneDisk(file, eocd)
            && Unpack(file, eocd + 8, 2) == count && Unpack(file, eocd + 10, 2) == count
            && Unpack(file, eocd + 12, 4) == size && Unpack(file, eocd + 16, 4) == offset
  {
    var fields := EndFields(count, size, offset, |comment|);
    assert body + EndRecord(count, size, offset, comment) == body + Encode(fields) + comment;
    EndWidths(count, size, offset, |comment|);
    Signatures();
    EncodedField(body, fields, comment, 0);
    FieldRead(body, fields, comment, 1, 4);
    FieldRead(body, fields, comment, 2, 6);
    FieldRead(body, fields, comment, 3, 8);
    FieldRead(body, fields, comment, 4, 10);
    FieldRead(body, fields, comment, 5, 12);
    FieldRead(body, fields, comment, 6, 16);
    FieldRead(body, fields, comment, 7, 20);
  }

  lemma RecordHead(body: Bytes, count: nat, size: nat, offset: nat, after: Bytes)
    ensures var file, record := body + Encode(RecordFields(count, size, offset)) + after, |body|;
            && record + ZIP64_EOCD_MIN_BYTES <= |file| && file[record..record + 4] == ZIP64_EOCD_SIGNATURE
            && Unpack(file, record + 4, 8) == ZIP64_EOCD_MIN_BYTES - 12
            && Unpack(file, record + 16, 4) == 0 && Unpack(file, record + 20, 4) == 0
  {
    var fields := RecordFields(count, size, offset);
    PowersGrow();
    RecordWidths(count, size, offset);
    Signatures();
    EncodedField(body, fields, after, 0);
    FieldRead(body, fields, after, 1, 4);
    FieldRead(body, fields, after, 4, 16);
    FieldRead(body, fields, after, 5, 20);
  }

  lemma RecordNumbers(body: Bytes, count: nat, size: nat, offset: nat, after: Bytes)
    requires count < Pow256(8) && size < Pow256(8) && offset < Pow256(8)
    ensures var file, record := body + Encode(RecordFields(count, size, offset)) + after, |body|;
            && record + ZIP64_EOCD_MIN_BYTES <= |file|
            && Unpack(file, record + 24, 8) == count && Unpack(file, record + 32, 8) == count
            && Unpack(file, record + 40, 8) == size && Unpack(file, record + 48, 8) == offset
  {
    var fields := RecordFields(count, size, offset);
    RecordWidths(count, size, offset);
    FieldRead(body, fields, after, 6, 24);
    FieldRead(body, fields, after, 7, 32);
    FieldRead(body, fields, after, 8, 40);
    FieldRead(body, fields, after, 9, 48);
  }

  lemma LocatorIs(body: Bytes, record: nat, after: Bytes)
    requires record < Pow256(8)
    ensures LocatorAt(body + Encode(LocatorFields(record)) + after, |body|, record)
  {
    var fields := LocatorFields(record);
    PowersGrow();
    LocatorWidths(record);
    Signatures();
    EncodedField(body, fields, after, 0);
    FieldRead(body, fields, after, 1, 4);
    FieldRead(body, fields, after, 2, 8);
    FieldRead(body, fields, after, 3, 16);
  }

  lemma PowersGrow()
    ensures Pow256(2) == 0x1_0000 && Pow256(4) == 0x1_0000_0000 && Pow256(8) == 0x1_0000_0000_0000_0000
  {
    assert Pow256(4) == 256 * (256 * Pow256(2));
    assert Pow256(8) == 256 * (256 * (256 * (256 * Pow256(4))));
  }

  /** A directory within the limits is accepted as it was written, exactly when no
      later record ends the file, which only a comment can hold. */
  lemma WrittenIsLaid(body: Bytes, count: nat, size: nat, offset: nat, comment: Bytes)
    requires count <= MAX_ARCHIVE_MEMBERS && ENTRY_MIN_BYTES * count <= size <= MAX_CENTRAL_DIRECTORY_BYTES
    requires offset + size <= |body| && |comment| <= EOCD_MAX_COMMENT_BYTES
    requires |body| + EOCD_MIN_BYTES + |comment| <= MAX_ARTIFACT_BYTES
    ensures var file := body + EndRecord(count, size, offset, comment);
            Laid(file, Layout(offset, size, count, None, |body|)) <==> forall later: nat :: EndsAt(file, later) ==>
              later <= |body|
  {
    PowersGrow();
    EndRecordFields(body, count, size, offset, comment);
  }

  /** A body, its ZIP64 record and the locator of that. */
  function Front64(body: Bytes, count: nat, size: nat, offset: nat): Bytes {
    body + Encode(RecordFields(count, size, offset)) + Encode(LocatorFields(|body|))
  }

  /** The same for a wheel that uses a ZIP64 record. */
  lemma Written64IsLaid(body: Bytes, count: nat, size: nat, offset: nat, comment: Bytes)
    requires count <= MAX_ARCHIVE_MEMBERS && ENTRY_MIN_BYTES * count <= size <= MAX_CENTRAL_DIRECTORY_BYTES
    requires offset + size <= |body| && |comment| <= EOCD_MAX_COMMENT_BYTES
    requires |body| + ZIP64_EOCD_MIN_BYTES + ZIP64_LOCATOR_BYTES + EOCD_MIN_BYTES + |comment| <= MAX_ARTIFACT_BYTES
    ensures var front := Front64(body, count, size, offset);
            var file := front + EndRecord(ZIP16_SENTINEL, ZIP32_SENTINEL, ZIP32_SENTINEL, comment);
            Laid(file, Layout(offset, size, count, Some(|body|), |front|)) <==>
              forall later: nat :: EndsAt(file, later) ==> later <= |front|
  {
    var front, end := Front64(body, count, size, offset),
      EndRecord(ZIP16_SENTINEL, ZIP32_SENTINEL, ZIP32_SENTINEL, comment);
    Front64Declares(body, count, size, offset, end);
    PowersGrow();
    EndRecordFields(front, ZIP16_SENTINEL, ZIP32_SENTINEL, ZIP32_SENTINEL, comment);
  }

  lemma Regrouped(one: Bytes, two: Bytes, three: Bytes, four: Bytes)
    ensures one + two + three + four == one + two + (three + four)
  {
  }

  lemma Front64Declares(body: Bytes, count: nat, size: nat, offset: nat, end: Bytes)
    requires count < Pow256(8) && size < Pow256(8) && offset < Pow256(8) && |body| < Pow256(8)
    ensures |Front64(body, count, size, offset)| == |body| + ZIP64_EOCD_MIN_BYTES + ZIP64_LOCATOR_BYTES
    ensures Declares64(Front64(body, count, size, offset) + end,
                       Layout(offset, size, count, Some(|body|), |Front64(body, count, size, offset)|))
  {
    var record, locator := Encode(RecordFields(count, size, offset)), Encode(LocatorFields(|body|));
    RecordWidths(count, size, offset);
    LocatorWidths(|body|);
    Regrouped(body, record, locator, end);
    RecordHead(body, count, size, offset, locator + end);
    RecordNumbers(body, count, size, offset, locator + end);
    LocatorIs(body + record, |body|, end);
    Front64Says(Front64(body, count, size, offset) + end, |body|, count, size, offset);
  }

  lemma Front64Says(file: Bytes, record: nat, count: nat, size: nat, offset: nat)
    requires record + ZIP64_EOCD_MIN_BYTES + ZIP64_LOCATOR_BYTES <= |file|
    requires file[record..record + 4] == ZIP64_EOCD_SIGNATURE
             && Unpack(file, record + 4, 8) == ZIP64_EOCD_MIN_BYTES - 12
    requires Unpack(file, record + 16, 4) == 0 && Unpack(file, record + 20, 4) == 0
    requires Unpack(file, record + 24, 8) == count && Unpack(file, record + 32, 8) == count
    requires Unpack(file, record + 40, 8) == size && Unpack(file, record + 48, 8) == offset
    requires LocatorAt(file, record + ZIP64_EOCD_MIN_BYTES, record)
    ensures Declares64(file,
                       Layout(offset, size, count, Some(record), record + ZIP64_EOCD_MIN_BYTES + ZIP64_LOCATOR_BYTES))
  {
  }
}
