/** The byte formats of blob indices, file metadata, version edits and table properties. */
module BlobFormat {
  import opened Wrappers
  import opened Coding

  // ---------------------------------------------------------------- blob handles and indices

  datatype BlobHandle = BlobHandle(offset: nat, size: nat, index: nat)

  const NO_HANDLE := BlobHandle(0, 0, 0)

  predicate HandleOk(h: BlobHandle) { h.offset < U64 && h.size < U64 && h.index < U64 }

  function EncodeHandle(h: BlobHandle): Bytes {
    PutVarint(h.offset) + PutVarint(h.size) + PutVarint(h.index)
  }

  function DecodeHandle(s: Bytes): (r: Decoded<BlobHandle>)
    ensures r.Some? ==> |r.value.1| < |s|
  {
    match GetVarint64(s)
    case None => None
    case Some((offset, s1)) =>
      match GetVarint64(s1)
      case None => None
      case Some((size, s2)) =>
        match GetVarint64(s2)
        case None => None
        case Some((index, s3)) => Some((BlobHandle(offset, size, index), s3))
  }

  lemma HandleRoundTrip(h: BlobHandle, rest: Bytes)
    requires HandleOk(h)
    ensures DecodeHandle(EncodeHandle(h) + rest) == Some((h, rest))
  {
    var s1 := PutVarint(h.size) + (PutVarint(h.index) + rest);
    assert EncodeHandle(h) + rest == PutVarint(h.offset) + s1;
    Varint64RoundTrip(h.offset, s1);
    Varint64RoundTrip(h.size, PutVarint(h.index) + rest);
    Varint64RoundTrip(h.index, rest);
  }

  /** `BlobIndex`; the old half says where GC moved the record from. */
  datatype BlobIndex = BlobIndex(file: nat, handle: BlobHandle, oldFile: nat, oldHandle: BlobHandle)

  const BLOB_RECORD: Byte := 1

  predicate IndexOk(x: BlobIndex) {
    x.file < U64 && HandleOk(x.handle) && x.oldFile < U64 && HandleOk(x.oldHandle)
  }

  function EncodeIndex(x: BlobIndex): Bytes {
    [BLOB_RECORD] + PutVarint(x.file) + EncodeHandle(x.handle) +
    (if x.oldFile > 0 then PutVarint(x.oldFile) + EncodeHandle(x.oldHandle) else [])
  }

  /** The old half is taken to be there exactly when bytes are left over. */
  function DecodeIndex(s: Bytes): Decoded<BlobIndex> {
    if s == [] || s[0] != BLOB_RECORD then None
    else
      match GetVarint64(s[1..])
      case None => None
      case Some((file, s1)) =>
        match DecodeHandle(s1)
        case None => None
        case Some((handle, s2)) =>
          if s2 == [] then Some((BlobIndex(file, handle, 0, NO_HANDLE), s2))
          else
            match GetVarint64(s2)
            case None => None
            case Some((oldFile, s3)) =>
              match DecodeHandle(s3)
              case None => None
              case Some((oldHandle, s4)) => Some((BlobIndex(file, handle, oldFile, oldHandle), s4))
  }

  /** What decoding an encoded index gives back: an old handle without an old file is lost. */
  function Canonical(x: BlobIndex): BlobIndex {
    if x.oldFile > 0 then x else x.(oldHandle := NO_HANDLE)
  }

  lemma IndexDecodes(x: BlobIndex)
    requires IndexOk(x)
    ensures DecodeIndex(EncodeIndex(x)) == Some((Canonical(x), []))
  {
    var tail := if x.oldFile > 0 then PutVarint(x.oldFile) + EncodeHandle(x.oldHandle) else [];
    var s := EncodeIndex(x);
    assert s == [BLOB_RECORD] + (PutVarint(x.file) + (EncodeHandle(x.handle) + tail));
    Varint64RoundTrip(x.file, EncodeHandle(x.handle) + tail);
    HandleRoundTrip(x.handle, tail);
    if x.oldFile > 0 {
      Varint64RoundTrip(x.oldFile, EncodeHandle(x.oldHandle));
      HandleRoundTrip(x.oldHandle, []);
      assert EncodeHandle(x.oldHandle) + [] == EncodeHandle(x.oldHandle);
    }
  }

  /** The round trip holds exactly when an index without an old file has no old handle either. */
  lemma IndexRoundTripIff(x: BlobIndex)
    requires IndexOk(x)
    ensures DecodeIndex(EncodeIndex(x)) == Some((x, [])) <==> (x.oldFile > 0 || x.oldHandle == NO_HANDLE)
  {
    IndexDecodes(x);
  }

  /** An old handle without an old file: the index comes back with another old handle. */
  lemma OldHandleLost()
    ensures var (h, old') := (BlobHandle(12, 30, 0), BlobHandle(40, 30, 1));
            && DecodeIndex(EncodeIndex(BlobIndex(3, h, 0, old'))) == Some((BlobIndex(3, h, 0, NO_HANDLE), []))
            && BlobIndex(3, h, 0, old') != BlobIndex(3, h, 0, NO_HANDLE)
  {
    IndexDecodes(BlobIndex(3, BlobHandle(12, 30, 0), 0, BlobHandle(40, 30, 1)));
  }

  // ---------------------------------------------------------------- blob records

  datatype BlobRecord = BlobRecord(key: Bytes, value: Bytes)

  predicate RecordOk(r: BlobRecord) { |r.key| < U32 && |r.value| < U32 }

  function EncodeRecord(r: BlobRecord): Bytes
    requires RecordOk(r)
  {
    PutSlice(r.key) + PutSlice(r.value)
  }

  function DecodeRecord(s: Bytes): Decoded<BlobRecord> {
    match GetSlice(s)
    case None => None
    case Some((key, s1)) =>
      match GetSlice(s1)
      case None => None
      case Some((value, s2)) => Some((BlobRecord(key, value), s2))
  }

  lemma RecordRoundTrip(r: BlobRecord)
    requires RecordOk(r)
    ensures DecodeRecord(EncodeRecord(r)) == Some((r, []))
  {
    SliceRoundTrip(r.key, PutSlice(r.value));
    SliceRoundTrip(r.value, []);
    assert PutSlice(r.value) + [] == PutSlice(r.value);
  }

  // ---------------------------------------------------------------- file metadata

  /** The persistent fields of `BlobFileMeta`. */
  datatype MetaRecord = MetaRecord(number: nat, size: nat, entries: nat, level: nat, smallest: Bytes, largest: Bytes)

  predicate MetaOk(m: MetaRecord) {
    && m.number < U64 && m.size < U64 && m.entries < U64 && m.level < U32
    && |m.smallest| < U32 && |m.largest| < U32
  }

  function EncodeNumbers(m: MetaRecord): Bytes {
    PutVarint(m.number) + (PutVarint(m.size) + (PutVarint(m.entries) + PutVarint(m.level)))
  }

  function EncodeMeta(m: MetaRecord): Bytes
    requires MetaOk(m)
  {
    EncodeNumbers(m) + (PutSlice(m.smallest) + PutSlice(m.largest))
  }

  /** The four numbers, in a record without keys. */
  function DecodeNumbers(s: Bytes): (r: Decoded<MetaRecord>)
    ensures r.Some? ==> |r.value.1| < |s|
  {
    match GetVarint64(s)
    case None => None
    case Some((number, s1)) =>
      match GetVarint64(s1)
      case None => None
      case Some((size, s2)) =>
        match GetVarint64(s2)
        case None => None
        case Some((entries, s3)) =>
          match GetVarint32(s3)
          case None => None
          case Some((level, s4)) => Some((MetaRecord(number, size, entries, level, [], []), s4))
  }

  function DecodeMeta(s: Bytes): (r: Decoded<MetaRecord>)
    ensures r.Some? ==> |r.value.1| < |s|
  {
    match DecodeNumbers(s)
    case None => None
    case Some((m, s4)) =>
      match GetSlice(s4)
      case None => None
      case Some((smallest, s5)) =>
        match GetSlice(s5)
        case None => None
        case Some((largest, s6)) => Some((m.(smallest := smallest, largest := largest), s6))
  }

  lemma NumbersRoundTrip(m: MetaRecord, rest: Bytes)
    requires MetaOk(m)
    ensures DecodeNumbers(EncodeNumbers(m) + rest) == Some((m.(smallest := [], largest := []), rest))
  {
    var (a, b, c, d) := (PutVarint(m.number), PutVarint(m.size), PutVarint(m.entries), PutVarint(m.level));
    Assoc3(a, b + (c + d), rest);
    Assoc3(b, c + d, rest);
    Assoc3(c, d, rest);
    Varint64RoundTrip(m.number, b + (c + (d + rest)));
    Varint64RoundTrip(m.size, c + (d + rest));
    Varint64RoundTrip(m.entries, d + rest);
    Varint32RoundTrip(m.level, rest);
  }

  lemma MetaRoundTrip(m: MetaRecord, rest: Bytes)
    requires MetaOk(m)
    ensures DecodeMeta(EncodeMeta(m) + rest) == Some((m, rest))
  {
    var (a, b) := (PutSlice(m.smallest), PutSlice(m.largest));
    Assoc3(EncodeNumbers(m), a + b, rest);
    Assoc3(a, b, rest);
    NumbersRoundTrip(m, a + (b + rest));
    SliceRoundTrip(m.smallest, b + rest);
    SliceRoundTrip(m.largest, rest);
  }

  // ---------------------------------------------------------------- version edits

  const K_NEXT_FILE_NUMBER: nat := 1
  const K_COLUMN_FAMILY_ID: nat := 10
  const K_ADDED_BLOB_FILE: nat := 11
  const K_DELETED_BLOB_FILE: nat := 12
  const K_ADDED_BLOB_FILE_V2: nat := 13

  /** What a manifest record holds; obsolete sequences are not persistent. */
  datatype EditRecord = EditRecord(next: Option<nat>, cf: nat, added: seq<MetaRecord>, deleted: seq<nat>)

  const NO_EDIT := EditRecord(None, 0, [], [])

  predicate EditOk(e: EditRecord) {
    && (e.next.Some? ==> e.next.value < U64) && e.cf < U32
    && (forall i | 0 <= i < |e.added| :: MetaOk(e.added[i]))
    && (forall i | 0 <= i < |e.deleted| :: e.deleted[i] < U64)
  }

  function EncodeAdded(files: seq<MetaRecord>): Bytes
    requires forall i | 0 <= i < |files| :: MetaOk(files[i])
  {
    if files == [] then []
    else PutVarint(K_ADDED_BLOB_FILE_V2) + (EncodeMeta(files[0]) + EncodeAdded(files[1..]))
  }

  function EncodeDeleted(files: seq<nat>): Bytes {
    if files == [] then []
    else PutVarint(K_DELETED_BLOB_FILE) + (PutVarint(files[0]) + EncodeDeleted(files[1..]))
  }

  function EncodeEdit(e: EditRecord): Bytes
    requires EditOk(e)
  {
    (if e.next.Some? then PutVarint(K_NEXT_FILE_NUMBER) + PutVarint(e.next.value) else []) +
    (PutVarint(K_COLUMN_FAMILY_ID) + PutVarint(e.cf)) +
    EncodeAdded(e.added) + EncodeDeleted(e.deleted)
  }

  /** What follows a tag; None is any of the loop's errors. */
  function DecodePayload(tag: nat, s: Bytes, e: EditRecord): (r: Decoded<EditRecord>)
    ensures r.Some? ==> |r.value.1| < |s|
  {
    if tag == K_NEXT_FILE_NUMBER then
      match GetVarint64(s) case None => None case Some((v, s2)) => Some((e.(next := Some(v)), s2))
    else if tag == K_COLUMN_FAMILY_ID then
      match GetVarint32(s) case None => None case Some((v, s2)) => Some((e.(cf := v), s2))
    else if tag == K_ADDED_BLOB_FILE then
      match GetVarint64(s)
      case None => None
      case Some((number, s2)) =>
        (match GetVarint64(s2)
         case None => None
         case Some((size, s3)) => Some((e.(added := e.added + [MetaRecord(number, size, 0, 0, [], [])]), s3)))
    else if tag == K_ADDED_BLOB_FILE_V2 then
      match DecodeMeta(s) case None => None case Some((m, s2)) => Some((e.(added := e.added + [m]), s2))
    else if tag == K_DELETED_BLOB_FILE then
      match GetVarint64(s) case None => None case Some((n, s2)) => Some((e.(deleted := e.deleted + [n]), s2))
    else None
  }

  /** One turn of the tag loop. */
  function DecodeTag(s: Bytes, e: EditRecord): (r: Decoded<EditRecord>)
    ensures r.Some? ==> |r.value.1| < |s|
  {
    match GetVarint32(s)
    case None => None
    case Some((tag, s1)) => DecodePayload(tag, s1, e)
  }

  function DecodeTags(s: Bytes, e: EditRecord): Option<EditRecord>
    decreases |s|
  {
    if s == [] then Some(e)
    else match DecodeTag(s, e) case None => None case Some((e', s')) => DecodeTags(s', e')
  }

  /** `VersionEdit::DecodeFrom`. */
  method DecodeEdit(s: Bytes) returns (r: Option<EditRecord>)
    ensures r == DecodeTags(s, NO_EDIT)
  {
    var rest, e := s, NO_EDIT;
    while rest != []
      invariant DecodeTags(s, NO_EDIT) == DecodeTags(rest, e)
      decreases |rest|
    {
      var step := DecodeTag(rest, e);
      if step.None? { return None; }
      e, rest := step.value.0, step.value.1;
    }
    return Some(e);
  }

  /** One tag and its payload `s`, whatever the payload's bytes are. */
  lemma TagsStep(tag: nat, s: Bytes, e: EditRecord, e': EditRecord, rest: Bytes)
    requires tag < U32
    requires DecodePayload(tag, s, e) == Some((e', rest))
    ensures DecodeTags(PutVarint(tag) + s, e) == DecodeTags(rest, e')
  {
    Varint32RoundTrip(tag, s);
  }

  lemma AddedTag(m: MetaRecord, rest: Bytes, e: EditRecord)
    requires MetaOk(m)
    ensures DecodeTags(PutVarint(K_ADDED_BLOB_FILE_V2) + (EncodeMeta(m) + rest), e) ==
            DecodeTags(rest, e.(added := e.added + [m]))
  {
    MetaRoundTrip(m, rest);
    TagsStep(K_ADDED_BLOB_FILE_V2, EncodeMeta(m) + rest, e, e.(added := e.added + [m]), rest);
  }

  lemma DeletedTag(n: nat, rest: Bytes, e: EditRecord)
    requires n < U64
    ensures DecodeTags(PutVarint(K_DELETED_BLOB_FILE) + (PutVarint(n) + rest), e) ==
            DecodeTags(rest, e.(deleted := e.deleted + [n]))
  {
    Varint64RoundTrip(n, rest);
    TagsStep(K_DELETED_BLOB_FILE, PutVarint(n) + rest, e, e.(deleted := e.deleted + [n]), rest);
  }

  lemma NextTag(v: nat, rest: Bytes, e: EditRecord)
    requires v < U64
    ensures DecodeTags(PutVarint(K_NEXT_FILE_NUMBER) + (PutVarint(v) + rest), e) ==
            DecodeTags(rest, e.(next := Some(v)))
  {
    Varint64RoundTrip(v, rest);
    TagsStep(K_NEXT_FILE_NUMBER, PutVarint(v) + rest, e, e.(next := Some(v)), rest);
  }

  lemma FamilyTag(cf: nat, rest: Bytes, e: EditRecord)
    requires cf < U32
    ensures DecodeTags(PutVarint(K_COLUMN_FAMILY_ID) + (PutVarint(cf) + rest), e) ==
            DecodeTags(rest, e.(cf := cf))
  {
    Varint32RoundTrip(cf, rest);
    TagsStep(K_COLUMN_FAMILY_ID, PutVarint(cf) + rest, e, e.(cf := cf), rest);
  }

  lemma AddedShape(files: seq<MetaRecord>, rest: Bytes)
    requires files != [] && forall i | 0 <= i < |files| :: MetaOk(files[i])
    ensures EncodeAdded(files) + rest ==
            PutVarint(K_ADDED_BLOB_FILE_V2) + (EncodeMeta(files[0]) + (EncodeAdded(files[1..]) + rest))
  {
    var (a, b, c) := (PutVarint(K_ADDED_BLOB_FILE_V2), EncodeMeta(files[0]), EncodeAdded(files[1..]));
    Assoc3(a, b + c, rest);
    Assoc3(b, c, rest);
  }

  lemma SplitFirst<T>(a: seq<T>, b: seq<T>)
    requires b != []
    ensures a + b == a + [b[0]] + b[1..]
  {}

  lemma {:induction false} AddedDecodes(files: seq<MetaRecord>, rest: Bytes, e: EditRecord)
    requires forall i | 0 <= i < |files| :: MetaOk(files[i])
    ensures DecodeTags(EncodeAdded(files) + rest, e) == DecodeTags(rest, e.(added := e.added + files))
  {
    if files == [] {
      assert EncodeAdded(files) + rest == rest && e.added + files == e.added;
    } else {
      AddedShape(files, rest);
      AddedTag(files[0], EncodeAdded(files[1..]) + rest, e);
      AddedDecodes(files[1..], rest, e.(added := e.added + [files[0]]));
      SplitFirst(e.added, files);
    }
  }

  lemma {:induction false} DeletedDecodes(files: seq<nat>, e: EditRecord)
    requires forall i | 0 <= i < |files| :: files[i] < U64
    ensures DecodeTags(EncodeDeleted(files), e) == Some(e.(deleted := e.deleted + files))
  {
    if files == [] {
      assert e.deleted + files == e.deleted;
    } else {
      DeletedTag(files[0], EncodeDeleted(files[1..]), e);
      DeletedDecodes(files[1..], e.(deleted := e.deleted + [files[0]]));
      SplitFirst(e.deleted, files);
    }
  }

  lemma EditShape(e: EditRecord)
    requires EditOk(e)
    ensures var tail := EncodeAdded(e.added) + EncodeDeleted(e.deleted);
            var mid := PutVarint(K_COLUMN_FAMILY_ID) + (PutVarint(e.cf) + tail);
            EncodeEdit(e) ==
            if e.next.Some? then PutVarint(K_NEXT_FILE_NUMBER) + (PutVarint(e.next.value) + mid) else mid
  {
    var (a, b, c, d) := (PutVarint(K_COLUMN_FAMILY_ID), PutVarint(e.cf), EncodeAdded(e.added),
                         EncodeDeleted(e.deleted));
    Assoc3(a + b, c, d);
    Assoc3(a, b, c + d);
    if e.next.Some? {
      var (x, y) := (PutVarint(K_NEXT_FILE_NUMBER), PutVarint(e.next.value));
      Assoc3(x + y, a + b, c);
      Assoc3(x + y, a + b + c, d);
      Assoc3(x, y, a + b + c + d);
    } else {
      assert [] + (a + b) == a + b;
    }
  }

  /** Every version edit that fits its field widths comes back from its manifest record. */
  lemma EditRoundTrip(e: EditRecord)
    requires EditOk(e)
    ensures DecodeTags(EncodeEdit(e), NO_EDIT) == Some(e)
  {
    var tail := EncodeAdded(e.added) + EncodeDeleted(e.deleted);
    var mid := PutVarint(K_COLUMN_FAMILY_ID) + (PutVarint(e.cf) + tail);
    var e0 := NO_EDIT.(next := e.next);
    EditShape(e);
    if e.next.Some? { NextTag(e.next.value, mid, NO_EDIT); }
    var e1 := e0.(cf := e.cf);
    FamilyTag(e.cf, tail, e0);
    AddedDecodes(e.added, EncodeDeleted(e.deleted), e1);
    DeletedDecodes(e.deleted, e1.(added := [] + e.added));
    assert [] + e.added == e.added && [] + e.deleted == e.deleted;
  }

  // ---------------------------------------------------------------- table properties

  /** `BlobFileSizeCollector::Encode`: count, then file number and size for each file. */
  function EncodeSizes(items: seq<(nat, nat)>): Bytes
    requires |items| < U32
  {
    PutVarint(|items|) + EncodePairs(items)
  }

  function EncodePairs(items: seq<(nat, nat)>): Bytes {
    if items == [] then [] else PutVarint(items[0].0) + (PutVarint(items[0].1) + EncodePairs(items[1..]))
  }

  function DecodePairs(s: Bytes, n: nat, m: map<nat, nat>): Decoded<map<nat, nat>>
    decreases n
  {
    if n == 0 then Some((m, s))
    else
      match GetVarint64(s)
      case None => None
      case Some((file, s1)) =>
        match GetVarint64(s1)
        case None => None
        case Some((size, s2)) => DecodePairs(s2, n - 1, m[file := size])
  }

  /** `BlobFileSizeCollector::Decode`. */
  method DecodeSizes(s: Bytes, into: map<nat, nat>) returns (r: Decoded<map<nat, nat>>)
    ensures r == match GetVarint32(s) case None => None case Some((n, s1)) => DecodePairs(s1, n, into)
  {
    var count := GetVarint32(s);
    if count.None? { return None; }
    var num, rest := count.value.0, count.value.1;
    var m: map<nat, nat> := into;
    for i := 0 to num
      invariant DecodePairs(count.value.1, num, into) == DecodePairs(rest, num - i, m)
    {
      var file := GetVarint64(rest);
      if file.None? { return None; }
      var size := GetVarint64(file.value.1);
      if size.None? { return None; }
      m, rest := m[file.value.0 := size.value.0], size.value.1;
    }
    return Some((m, rest));
  }

  function PairMap(items: seq<(nat, nat)>, into: map<nat, nat>): map<nat, nat> {
    if items == [] then into else PairMap(items[1..], into[items[0].0 := items[0].1])
  }

  lemma {:induction false} PairsDecode(items: seq<(nat, nat)>, rest: Bytes, into: map<nat, nat>)
    requires forall i | 0 <= i < |items| :: items[i].0 < U64 && items[i].1 < U64
    ensures DecodePairs(EncodePairs(items) + rest, |items|, into) == Some((PairMap(items, into), rest))
  {
    if items == [] {
      assert EncodePairs(items) + rest == rest;
    } else {
      var more := EncodePairs(items[1..]) + rest;
      Assoc3(PutVarint(items[0].0), PutVarint(items[0].1) + EncodePairs(items[1..]), rest);
      Assoc3(PutVarint(items[0].1), EncodePairs(items[1..]), rest);
      Varint64RoundTrip(items[0].0, PutVarint(items[0].1) + more);
      Varint64RoundTrip(items[0].1, more);
      PairsDecode(items[1..], rest, into[items[0].0 := items[0].1]);
    }
  }

  /** `BlobValidationCollector::Encode`: for each file its number and the list of entry indices. */
  function EncodeEntries(items: seq<(nat, seq<nat>)>): Bytes
    requires |items| < U32
  {
    PutVarint(|items|) + EncodeLists(items)
  }

  function EncodeList(list: seq<nat>): Bytes {
    if list == [] then [] else PutVarint(list[0]) + EncodeList(list[1..])
  }

  function EncodeLists(items: seq<(nat, seq<nat>)>): Bytes {
    if items == [] then []
    else PutVarint(items[0].0) + (PutVarint(|items[0].1|) + (EncodeList(items[0].1) + EncodeLists(items[1..])))
  }

  type EntryMap = map<nat, seq<nat>>

  /** `(*m)[file].push_back(index)`. */
  function PushBack(m: EntryMap, file: nat, index: nat): EntryMap {
    m[file := (if file in m then m[file] else []) + [index]]
  }

  function DecodeList(s: Bytes, n: nat, file: nat, m: EntryMap): Decoded<EntryMap>
    decreases n
  {
    if n == 0 then Some((m, s))
    else
      match GetVarint64(s)
      case None => None
      case Some((index, s1)) => DecodeList(s1, n - 1, file, PushBack(m, file, index))
  }

  function DecodeLists(s: Bytes, n: nat, m: EntryMap): Decoded<EntryMap>
    decreases n
  {
    if n == 0 then Some((m, s))
    else
      match GetVarint64(s)
      case None => None
      case Some((file, s1)) =>
        match GetVarint32(s1)
        case None => None
        case Some((size, s2)) =>
          match DecodeList(s2, size, file, m)
          case None => None
          case Some((m', s3)) => DecodeLists(s3, n - 1, m')
  }

  /** `BlobValidationCollector::Decode`: two nested counting loops into an accumulating map. */
  method DecodeEntries(s: Bytes, into: EntryMap) returns (r: Decoded<EntryMap>)
    ensures r == match GetVarint32(s) case None => None case Some((n, s1)) => DecodeLists(s1, n, into)
  {
    var count := GetVarint32(s);
    if count.None? { return None; }
    var num, rest, m := count.value.0, count.value.1, into;
    for i := 0 to num
      invariant DecodeLists(count.value.1, num, into) == DecodeLists(rest, num - i, m)
    {
      var file := GetVarint64(rest);
      if file.None? { return None; }
      var size := GetVarint32(file.value.1);
      if size.None? { return None; }
      ghost var m0, s0 := m, size.value.1;
      rest := size.value.1;
      for j := 0 to size.value.0
        invariant DecodeList(s0, size.value.0, file.value.0, m0) == DecodeList(rest, size.value.0 - j, file.value.0, m)
      {
        var index := GetVarint64(rest);
        if index.None? { return None; }
        m, rest := PushBack(m, file.value.0, index.value.0), index.value.1;
      }
    }
    return Some((m, rest));
  }

  /** The map after appending one list: an empty list leaves no trace. */
  function AppendList(m: EntryMap, file: nat, list: seq<nat>): EntryMap {
    if list == [] then m else m[file := (if file in m then m[file] else []) + list]
  }

  function AppendLists(m: EntryMap, items: seq<(nat, seq<nat>)>): EntryMap
    decreases |items|
  {
    if items == [] then m else AppendLists(AppendList(m, items[0].0, items[0].1), items[1..])
  }

  lemma PushThenAppend(m: EntryMap, file: nat, list: seq<nat>)
    requires list != []
    ensures AppendList(PushBack(m, file, list[0]), file, list[1..]) == AppendList(m, file, list)
  {
    SplitFirst(if file in m then m[file] else [], list);
    if list[1..] == [] { assert list == [list[0]]; }
  }

  lemma {:induction false} ListDecodes(list: seq<nat>, rest: Bytes, file: nat, m: EntryMap)
    requires forall i | 0 <= i < |list| :: list[i] < U64
    ensures DecodeList(EncodeList(list) + rest, |list|, file, m) == Some((AppendList(m, file, list), rest))
  {
    if list == [] {
      assert EncodeList(list) + rest == rest;
    } else {
      var more := EncodeList(list[1..]) + rest;
      Assoc3(PutVarint(list[0]), EncodeList(list[1..]), rest);
      Varint64RoundTrip(list[0], more);
      ListDecodes(list[1..], rest, file, PushBack(m, file, list[0]));
      PushThenAppend(m, file, list);
    }
  }

  predicate EntriesOk(items: seq<(nat, seq<nat>)>) {
    forall i | 0 <= i < |items| ::
      items[i].0 < U64 && |items[i].1| < U32 && forall j | 0 <= j < |items[i].1| :: items[i].1[j] < U64
  }

  /** One file's number, count and list in front of `s`. */
  lemma ListsStep(file: nat, list: seq<nat>, s: Bytes, n: nat, m: EntryMap)
    requires file < U64 && |list| < U32 && (forall j | 0 <= j < |list| :: list[j] < U64) && n > 0
    ensures DecodeLists(PutVarint(file) + (PutVarint(|list|) + (EncodeList(list) + s)), n, m) ==
            DecodeLists(s, n - 1, AppendList(m, file, list))
  {
    Varint64RoundTrip(file, PutVarint(|list|) + (EncodeList(list) + s));
    Varint32RoundTrip(|list|, EncodeList(list) + s);
    ListDecodes(list, s, file, m);
  }

  lemma ListsShape(items: seq<(nat, seq<nat>)>, rest: Bytes)
    requires items != []
    ensures EncodeLists(items) + rest ==
            PutVarint(items[0].0) +
            (PutVarint(|items[0].1|) + (EncodeList(items[0].1) + (EncodeLists(items[1..]) + rest)))
  {
    Assoc5(PutVarint(items[0].0), PutVarint(|items[0].1|), EncodeList(items[0].1), EncodeLists(items[1..]), rest);
  }

  lemma {:induction false} ListsDecode(items: seq<(nat, seq<nat>)>, rest: Bytes, m: EntryMap)
    requires EntriesOk(items)
    ensures DecodeLists(EncodeLists(items) + rest, |items|, m) == Some((AppendLists(m, items), rest))
    decreases |items|
  {
    if items == [] {
      assert EncodeLists(items) + rest == rest;
    } else {
      var file, list := items[0].0, items[0].1;
      ListsShape(items, rest);
      ListsStep(file, list, EncodeLists(items[1..]) + rest, |items|, m);
      ListsDecode(items[1..], rest, AppendList(m, file, list));
    }
  }

  /** `items` lists the map `m` in some order, each key once. */
  predicate Enumerates<T(==)>(items: seq<(nat, T)>, m: map<nat, T>) {
    && |items| == |m|
    && (forall i | 0 <= i < |items| :: items[i].0 in m && m[items[i].0] == items[i].1)
    && (forall i, j | 0 <= i < j < |items| :: items[i].0 != items[j].0)
  }

  lemma PairMapStep(k: nat, m: map<nat, nat>, into: map<nat, nat>)
    requires k in m && k !in into
    ensures into[k := m[k]] + (m - {k}) == into + m
  {
    assert (into[k := m[k]] + (m - {k})).Keys == (into + m).Keys;
  }

  lemma {:induction false} PairMapIs(items: seq<(nat, nat)>, m: map<nat, nat>, into: map<nat, nat>)
    requires Enumerates(items, m) && m.Keys !! into.Keys
    ensures PairMap(items, into) == into + m
  {
    if items == [] {
      assert m == map[];
      assert into + m == into;
    } else {
      var k := items[0].0;
      TailEnumerates(items, m);
      PairMapIs(items[1..], m - {k}, into[k := m[k]]);
      PairMapStep(k, m, into);
    }
  }

  lemma TailEnumerates<T>(items: seq<(nat, T)>, m: map<nat, T>)
    requires Enumerates(items, m) && items != []
    ensures Enumerates(items[1..], m - {items[0].0})
  {
    assert |(m - {items[0].0}).Keys| == |m.Keys| - 1 by {
      assert (m - {items[0].0}).Keys == m.Keys - {items[0].0};
    }
  }

  lemma PairsDecodeAll(items: seq<(nat, nat)>, m: map<nat, nat>)
    requires Enumerates(items, m)
    requires forall i | 0 <= i < |items| :: items[i].0 < U64 && items[i].1 < U64
    ensures DecodePairs(EncodePairs(items), |items|, map[]) == Some((m, []))
  {
    AppendNothing(EncodePairs(items));
    PairsDecode(items, [], map[]);
    assert PairMap(items, map[]) == m by {
      PairMapIs(items, m, map[]);
      assert map[] + m == m;
    }
  }

  /** Every size map comes back from its table property, and all its bytes are used. */
  lemma SizesRoundTrip(items: seq<(nat, nat)>, m: map<nat, nat>)
    requires Enumerates(items, m) && |items| < U32
    requires forall i | 0 <= i < |items| :: items[i].0 < U64 && items[i].1 < U64
    ensures GetVarint32(EncodeSizes(items)) == Some((|items|, EncodePairs(items)))
    ensures DecodePairs(EncodePairs(items), |items|, map[]) == Some((m, []))
  {
    PairsDecodeAll(items, m);
    Varint32RoundTrip(|items|, EncodePairs(items));
  }

  function NonEmpty(m: EntryMap): EntryMap { map f | f in m && m[f] != [] :: m[f] }

  lemma AppendListsStep(k: nat, list: seq<nat>, m: EntryMap, into: EntryMap)
    requires k in m && m[k] == list && k !in into
    ensures AppendList(into, k, list) + NonEmpty(m - {k}) == into + NonEmpty(m)
  {
    if list == [] {
      assert NonEmpty(m - {k}) == NonEmpty(m);
    } else {
      assert [] + list == list;
      var left, right := into[k := list] + NonEmpty(m - {k}), into + NonEmpty(m);
      assert left.Keys == right.Keys;
    }
  }

  lemma {:induction false} AppendListsIs(items: seq<(nat, seq<nat>)>, m: EntryMap, into: EntryMap)
    requires Enumerates(items, m) && m.Keys !! into.Keys
    ensures AppendLists(into, items) == into + NonEmpty(m)
    decreases |items|
  {
    if items == [] {
      assert m == map[];
      assert into + NonEmpty(m) == into;
    } else {
      var k, list := items[0].0, items[0].1;
      TailEnumerates(items, m);
      AppendListsIs(items[1..], m - {k}, AppendList(into, k, list));
      AppendListsStep(k, list, m, into);
    }
  }

  lemma ListsDecodeAll(items: seq<(nat, seq<nat>)>, m: EntryMap)
    requires Enumerates(items, m) && EntriesOk(items)
    ensures DecodeLists(EncodeLists(items), |items|, map[]) == Some((NonEmpty(m), []))
  {
    AppendNothing(EncodeLists(items));
    ListsDecode(items, [], map[]);
    assert AppendLists(map[], items) == NonEmpty(m) by {
      AppendListsIs(items, m, map[]);
      assert map[] + NonEmpty(m) == NonEmpty(m);
    }
  }

  lemma NonEmptyIsAll(m: EntryMap)
    ensures NonEmpty(m) == m <==> forall f | f in m :: m[f] != []
  {
    if NonEmpty(m) == m {
      forall f | f in m ensures m[f] != [] { assert f in NonEmpty(m); }
    }
  }

  /**
   The entry lists come back from their table property with all bytes used, except that a file with
   an empty list is forgotten: the round trip is exact if and only if no list is empty.
   */
  lemma EntriesRoundTripIff(items: seq<(nat, seq<nat>)>, m: EntryMap)
    requires Enumerates(items, m) && EntriesOk(items) && |items| < U32
    ensures GetVarint32(EncodeEntries(items)) == Some((|items|, EncodeLists(items)))
    ensures DecodeLists(EncodeLists(items), |items|, map[]) == Some((NonEmpty(m), []))
    ensures DecodeLists(EncodeLists(items), |items|, map[]) == Some((m, [])) <==> forall f | f in m :: m[f] != []
  {
    ListsDecodeAll(items, m);
    NonEmptyIsAll(m);
    Varint32RoundTrip(|items|, EncodeLists(items));
  }

  /** File 5 with an empty list comes back as no file at all. */
  lemma EmptyListForgotten()
    ensures var m: EntryMap := map[5 := []];
            && Enumerates([(5, [])], m) && DecodeLists(EncodeLists([(5, [])]), 1, map[]) == Some((map[], []))
  {
    var m: EntryMap := map[5 := []];
    assert m.Keys == {5} && |m| == 1;
    EntriesRoundTripIff([(5, [])], m);
    assert NonEmpty(m) == map[];
  }
}
