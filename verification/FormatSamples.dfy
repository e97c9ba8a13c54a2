/** One sample of each byte format, byte by byte: order of fields, widths, tags, magic numbers; what is refused. */
module FormatSamples {
  import opened Wrappers
  import opened Coding
  import opened BlobFormat
  import opened BlobFile

  lemma OneByte(v: nat)
    requires v < 128
    ensures PutVarint(v) == [v]
  {}

  lemma TwoBytes(v: nat)
    requires 128 <= v < 128 * 128
    ensures PutVarint(v) == [128 + v % 128, v / 128]
  {}

  lemma HandleSample()
    ensures EncodeHandle(BlobHandle(1, 300, 2)) == [1, 0xac, 2, 2]
  {
    TwoBytes(300);
  }

  lemma IndexSample()
    ensures EncodeIndex(BlobIndex(5, BlobHandle(1, 300, 2), 0, NO_HANDLE)) == [1, 5, 1, 0xac, 2, 2]
    ensures EncodeIndex(BlobIndex(5, BlobHandle(1, 300, 2), 6, BlobHandle(7, 8, 9))) ==
            [1, 5, 1, 0xac, 2, 2, 6, 7, 8, 9]
  {
    HandleSample();
    assert EncodeHandle(BlobHandle(7, 8, 9)) == [7, 8, 9];
  }

  lemma RecordSample()
    ensures EncodeRecord(BlobRecord([65], [66, 67])) == [1, 65, 2, 66, 67]
  {}

  lemma MetaSample()
    ensures EncodeMeta(MetaRecord(1, 2, 3, 4, [65], [66, 67])) == [1, 2, 3, 4, 1, 65, 2, 66, 67]
  {}

  /** Tags 1, 10, 13 and 12: next file number, column family, added and deleted file. */
  lemma EditSample()
    ensures var m := MetaRecord(1, 2, 3, 4, [65], [66, 67]);
            EncodeEdit(EditRecord(Some(9), 7, [m], [8])) == [1, 9, 10, 7, 13, 1, 2, 3, 4, 1, 65, 2, 66, 67, 12, 8]
  {
    var m := MetaRecord(1, 2, 3, 4, [65], [66, 67]);
    MetaSample();
    assert [m][1..] == [] && [8][1..] == [];
    assert EncodeAdded([m]) == [13, 1, 2, 3, 4, 1, 65, 2, 66, 67];
    assert EncodeDeleted([8]) == [12, 8];
  }

  lemma PropertySamples()
    ensures EncodeSizes([(1, 2), (3, 4)]) == [2, 1, 2, 3, 4]
    ensures EncodeEntries([(5, [6, 7])]) == [1, 5, 2, 6, 7]
  {
    assert [(1, 2), (3, 4)][1..] == [(3, 4)] && [(3, 4)][1..] == [];
    assert EncodePairs([(3, 4)]) == [3, 4];
    assert [(5, [6, 7])][1..] == [] && [6, 7][1..] == [7] && [7][1..] == [];
    assert EncodeList([7]) == [7] && EncodeList([6, 7]) == [6, 7];
    assert EncodeLists([(5, [6, 7])]) == [5, 2, 6, 7];
  }

  /** Magic number 0x2be0a614, version 2, and the dictionary flag, least significant byte first. */
  lemma HeaderSample()
    ensures EncodeHeader(true) == [0x14, 0xa6, 0xe0, 0x2b, 2, 0, 0, 0, 1, 0, 0, 0]
    ensures EncodeHeader(false) == [0x14, 0xa6, 0xe0, 0x2b, 2, 0, 0, 0, 0, 0, 0, 0]
  {
    assert PutFixed32(HEADER_MAGIC) == [0x14, 0xa6, 0xe0, 0x2b];
    assert PutFixed32(2) == [2, 0, 0, 0] && PutFixed32(1) == [1, 0, 0, 0] && PutFixed32(0) == [0, 0, 0, 0];
  }

  /** Offset, size, zeros up to twenty bytes, magic number 0x2be0a6148e39edc6, checksum of all that. */
  lemma FooterSample(t: Tools)
    requires Lawful(t)
    ensures var s := EncodeFooter(t, BlockHandle(1, 300));
            && |s| == 32 && s[..3] == [1, 0xac, 2] && (forall i | 3 <= i < 20 :: s[i] == 0)
            && s[20..28] == [0xc6, 0xed, 0x39, 0x8e, 0x14, 0xa6, 0xe0, 0x2b]
            && s[28..] == PutFixed32(t.crc(s[..28]))
  {
    var front := PadHandle(BlockHandle(1, 300)) + FOOTER_MAGIC;
    FrontSample();
    Last(front, PutFixed32(t.crc(front)));
    assert EncodeFooter(t, BlockHandle(1, 300))[..28] == front;
  }

  lemma FrontSample()
    ensures var s := PadHandle(BlockHandle(1, 300)) + FOOTER_MAGIC;
            && |s| == 28 && s[..3] == [1, 0xac, 2] && (forall i | 3 <= i < 20 :: s[i] == 0)
            && s[20..28] == [0xc6, 0xed, 0x39, 0x8e, 0x14, 0xa6, 0xe0, 0x2b]
  {
    TwoBytes(300);
    assert PutFixed32(FOOTER_MAGIC_LOW) == [0xc6, 0xed, 0x39, 0x8e];
    assert PutFixed32(FOOTER_MAGIC_HIGH) == [0x14, 0xa6, 0xe0, 0x2b];
  }

  /** Checksum of what follows, payload size, compression type, payload. */
  lemma FramingSample(t: Tools, dict: Bytes, payload: Bytes)
    requires Lawful(t) && |payload| < U32
    ensures var (p, c) := t.compress(dict, payload);
            var s := Encoded(t, dict, payload);
            && |s| == 9 + |p| && s[..4] == PutFixed32(t.crc(s[4..])) && s[4..8] == PutFixed32(|p|)
            && s[8] == c && s[9..] == p
  {
    EncodedParts(t, dict, payload);
  }

  // ---------------------------------------------------------------- what is refused

  /** A record is read only if its checksum is that of the bytes after it, up to the end its size gives. */
  lemma ReadIsChecked(t: Tools, dict: Bytes, file: Bytes, offset: nat)
    requires ReadRecord(t, dict, file, offset).Some?
    ensures var n := ReadRecord(t, dict, file, offset).value.1;
            && 9 <= n && offset + n <= |file|
            && DecodeRecordHeader(file[offset..offset + 9]).Some?
            && DecodeRecordHeader(file[offset..offset + 9]).value.crc == t.crc(file[offset + 4..offset + n])
            && DecodeRecordHeader(file[offset..offset + 9]).value.size == n - 9
  {}

  /** A header is accepted exactly with the magic number, version 1 or 2, and in version 2 no flag but the first. */
  lemma HeaderIsChecked(magic: nat, version: nat, flags: nat)
    requires magic < U32 && version < U32 && flags < U32
    ensures DecodeHeader(PutFixed32(magic) + (PutFixed32(version) + PutFixed32(flags))) ==
            if magic == 0x2be0a614 && version == 1 then Some((8, false))
            else if magic == 0x2be0a614 && version == 2 && flags <= 1 then Some((12, flags == 1))
            else None
  {
    AppendNothing(PutFixed32(flags));
    Fixed32RoundTrip(flags, []);
    Fixed32RoundTrip(version, PutFixed32(flags));
    Fixed32RoundTrip(magic, PutFixed32(version) + PutFixed32(flags));
  }

  /** A footer is accepted exactly if its handle decodes, with its magic number and its checksum. */
  lemma FooterIsChecked(t: Tools, front: Bytes, low: nat, high: nat, crc: nat)
    requires |front| == 20 && low < U32 && high < U32 && crc < U32
    ensures var s := ((front + PutFixed32(low)) + PutFixed32(high)) + PutFixed32(crc);
            DecodeFooter(t, s).Some? <==>
              DecodeBlockHandle(s).Some? && low == 0x8e39edc6 && high == 0x2be0a614 && crc == t.crc(s[..28])
  {
    var s := ((front + PutFixed32(low)) + PutFixed32(high)) + PutFixed32(crc);
    AppendNothing(PutFixed32(crc));
    assert s[20..] == PutFixed32(low) + s[24..] && s[24..] == PutFixed32(high) + s[28..] && s[28..] == PutFixed32(crc);
    Fixed32RoundTrip(low, s[24..]);
    Fixed32RoundTrip(high, s[28..]);
    Fixed32RoundTrip(crc, []);
  }
}
