/** The layout of a blob file: header, records one after another, meta blocks, footer. */
module BlobFile {
  import opened Wrappers
  import opened Coding
  import opened BlobFormat

  /** Offset and size of a block; both zero means there is none. */
  datatype BlockHandle = BlockHandle(offset: nat, size: nat)

  const NULL_BLOCK := BlockHandle(0, 0)

  /** Checksum, compression, dictionary training and meta index blocks, known by the laws below. */
  datatype Tools = Tools(
    crc: Bytes -> nat,
    mask: nat -> nat,
    compress: (Bytes, Bytes) -> (Bytes, Byte),
    uncompress: (Bytes, Byte, Bytes) -> Option<Bytes>,
    train: seq<Bytes> -> Bytes,
    metaIndex: BlockHandle -> Bytes,
    findDict: Bytes -> Option<BlockHandle>)

  const NO_COMPRESSION: Byte := 0

  /** Compressed data fits the size field and comes back, and so does a meta index entry. */
  ghost predicate Lawful(t: Tools) {
    && (forall x {:trigger t.crc(x)} :: t.crc(x) < U32)
    && (forall x {:trigger t.mask(x)} :: t.mask(x) < U32)
    && (forall d, x {:trigger t.compress(d, x)} ::
          |x| < U32 ==>
          var (p, c) := t.compress(d, x);
          |p| < U32 && if c == NO_COMPRESSION then p == x else t.uncompress(d, c, p) == Some(x))
    && (forall h {:trigger t.metaIndex(h)} :: t.metaIndex(h) != [] && t.findDict(t.metaIndex(h)) == Some(h))
  }

  function Ones(n: nat): (r: Bytes)
    ensures |r| == n && forall i | 0 <= i < n :: r[i] == 1
  {
    seq(n, _ => 1)
  }

  /** A handle in unary, as an example of an encoding that can be undone. */
  function Unary(h: BlockHandle): Bytes { Ones(h.offset) + [0] + Ones(h.size) }

  lemma UnaryInjective(g: BlockHandle, h: BlockHandle)
    requires Unary(g) == Unary(h)
    ensures g == h
  {
    UnaryAt(g);
    UnaryAt(h);
  }

  lemma UnaryAt(h: BlockHandle)
    ensures var x := Unary(h);
            |x| == h.offset + 1 + h.size && x[h.offset] == 0 && forall i | 0 <= i < h.offset :: x[i] == 1
  {}

  /** The laws can be met: no checksum, no compression, handles in unary. */
  lemma LawsAreConsistent()
    ensures exists t :: Lawful(t)
  {
    var find := (b: Bytes) => if exists h :: Unary(h) == b then var h :| Unary(h) == b; Some(h) else None;
    var t := Tools(_ => 0, _ => 0, (_, x) => (x, NO_COMPRESSION), (_, _, _) => None, _ => [], h => Unary(h), find);
    forall h
      ensures t.metaIndex(h) != [] && t.findDict(t.metaIndex(h)) == Some(h)
    {
      var b := Unary(h);
      assert exists g :: Unary(g) == b;
      var r := find(b);
      assert r.Some? && Unary(r.value) == b;
      UnaryInjective(r.value, h);
    }
    assert Lawful(t);
  }

  const RECORD_HEADER_SIZE: nat := 9

  /** A record whose payload length fits the 32-bit size field. */
  predicate Storable(r: BlobRecord) { RecordOk(r) && |EncodeRecord(r)| < U32 }

  /** `BlobEncoder::EncodeSlice`: checksum, size, compression type, then the payload. */
  function Encoded(t: Tools, dict: Bytes, payload: Bytes): (r: Bytes)
    requires Lawful(t) && |payload| < U32
    ensures |r| >= RECORD_HEADER_SIZE
  {
    var (p, c) := t.compress(dict, payload);
    var tail := PutFixed32(|p|) + [c] + p;
    PutFixed32(t.crc(tail)) + tail
  }

  /** The header fields `BlobDecoder::DecodeHeader` reads: checksum, size, compression type. */
  datatype RecordHeader = RecordHeader(crc: nat, size: nat, compression: Byte)

  function DecodeRecordHeader(s: Bytes): (r: Option<RecordHeader>)
    ensures r.Some? <==> |s| >= RECORD_HEADER_SIZE
  {
    match GetFixed32(s)
    case None => None
    case Some((crc, s1)) =>
      match GetFixed32(s1)
      case None => None
      case Some((size, s2)) => if s2 == [] then None else Some(RecordHeader(crc, size, s2[0]))
  }

  /** `BlobDecoder::DecodeRecord` on the bytes after the header; `tail` is what the checksum covers. */
  function DecodeBody(t: Tools, dict: Bytes, h: RecordHeader, tail: Bytes, body: Bytes): Option<BlobRecord> {
    if t.crc(tail) != h.crc then None
    else
      var raw := if h.compression == NO_COMPRESSION then Some(body) else t.uncompress(dict, h.compression, body);
      match raw
      case None => None
      case Some(payload) =>
        match DecodeRecord(payload)
        case None => None
        case Some((r, rest)) => if rest == [] then Some(r) else None
  }

  /** Reads the record that starts at `offset`: header first, then as many bytes as it says. */
  function ReadRecord(t: Tools, dict: Bytes, file: Bytes, offset: nat): Option<(BlobRecord, nat)> {
    if offset + RECORD_HEADER_SIZE > |file| then None
    else
      var h := DecodeRecordHeader(file[offset..offset + RECORD_HEADER_SIZE]).value;
      var end := offset + RECORD_HEADER_SIZE + h.size;
      if end > |file| then None
      else
        match DecodeBody(t, dict, h, file[offset + 4..end], file[offset + RECORD_HEADER_SIZE..end])
        case None => None
        case Some(r) => Some((r, RECORD_HEADER_SIZE + h.size))
  }

  lemma EncodedParts(t: Tools, dict: Bytes, payload: Bytes)
    requires Lawful(t) && |payload| < U32
    ensures var (p, c) := t.compress(dict, payload);
            var s := Encoded(t, dict, payload);
            && |s| == RECORD_HEADER_SIZE + |p|
            && s[4..] == PutFixed32(|p|) + [c] + p && s[RECORD_HEADER_SIZE..] == p
            && DecodeRecordHeader(s[..RECORD_HEADER_SIZE]) == Some(RecordHeader(t.crc(s[4..]), |p|, c))
  {
    var (p, c) := t.compress(dict, payload);
    var tail := PutFixed32(|p|) + [c] + p;
    var s := Encoded(t, dict, payload);
    assert s[4..] == tail;
    assert s[RECORD_HEADER_SIZE..] == p;
    var h := s[..RECORD_HEADER_SIZE];
    assert h == PutFixed32(t.crc(tail)) + (PutFixed32(|p|) + [c]);
    Fixed32RoundTrip(t.crc(tail), PutFixed32(|p|) + [c]);
    Fixed32RoundTrip(|p|, [c]);
  }

  lemma BodyDecodes(t: Tools, dict: Bytes, r: BlobRecord)
    requires Lawful(t) && Storable(r)
    ensures var (p, c) := t.compress(dict, EncodeRecord(r));
            forall tail :: DecodeBody(t, dict, RecordHeader(t.crc(tail), |p|, c), tail, p) == Some(r)
  {
    RecordRoundTrip(r);
  }

  /** Where the bytes of an encoded record lie in a file, reading there gives the record. */
  lemma EncodedReads(t: Tools, dict: Bytes, r: BlobRecord, file: Bytes, offset: nat)
    requires Lawful(t) && Storable(r)
    requires var s := Encoded(t, dict, EncodeRecord(r));
             offset + |s| <= |file| && file[offset..offset + |s|] == s
    ensures ReadRecord(t, dict, file, offset) == Some((r, |Encoded(t, dict, EncodeRecord(r))|))
  {
    var s := Encoded(t, dict, EncodeRecord(r));
    EncodedParts(t, dict, EncodeRecord(r));
    BodyDecodes(t, dict, r);
    SliceOfSlice(file, s, offset, 0, RECORD_HEADER_SIZE);
    SliceOfSlice(file, s, offset, 4, |s|);
    SliceOfSlice(file, s, offset, RECORD_HEADER_SIZE, |s|);
    var (p, c) := t.compress(dict, EncodeRecord(r));
    ReadFrom(t, dict, r, file, offset, RecordHeader(t.crc(s[4..]), |p|, c), s[4..], s[RECORD_HEADER_SIZE..]);
  }

  /** A header, and behind it a body that decodes. */
  lemma ReadFrom(t: Tools, dict: Bytes, r: BlobRecord, file: Bytes, offset: nat,
                 h: RecordHeader, tail: Bytes, body: Bytes)
    requires offset + RECORD_HEADER_SIZE + h.size <= |file|
    requires DecodeRecordHeader(file[offset..offset + RECORD_HEADER_SIZE]) == Some(h)
    requires file[offset + 4..offset + RECORD_HEADER_SIZE + h.size] == tail
    requires file[offset + RECORD_HEADER_SIZE..offset + RECORD_HEADER_SIZE + h.size] == body
    requires DecodeBody(t, dict, h, tail, body) == Some(r)
    ensures ReadRecord(t, dict, file, offset) == Some((r, RECORD_HEADER_SIZE + h.size))
  {}

  lemma SliceOfSlice(file: Bytes, s: Bytes, offset: nat, lo: nat, hi: nat)
    requires offset + |s| <= |file| && file[offset..offset + |s|] == s && lo <= hi <= |s|
    ensures file[offset + lo..offset + hi] == s[lo..hi]
  {
    forall i | 0 <= i < hi - lo
      ensures file[offset + lo..offset + hi][i] == s[lo..hi][i]
    {
      assert file[offset..offset + |s|][lo + i] == s[lo + i];
    }
  }

  // ---------------------------------------------------------------- the record area

  ghost predicate AllStorable(rs: seq<BlobRecord>) { forall i | 0 <= i < |rs| :: Storable(rs[i]) }

  /** The bytes of all the records, in order. */
  function Body(t: Tools, dict: Bytes, rs: seq<BlobRecord>): Bytes
    requires Lawful(t) && AllStorable(rs)
  {
    if rs == [] then []
    else Body(t, dict, rs[..|rs| - 1]) + Encoded(t, dict, EncodeRecord(rs[|rs| - 1]))
  }

  /** The handle of record `i` of a file whose records start at `base`. */
  function HandleOf(t: Tools, dict: Bytes, rs: seq<BlobRecord>, base: nat, i: nat): BlobHandle
    requires Lawful(t) && AllStorable(rs) && i < |rs|
  {
    BlobHandle(base + |Body(t, dict, rs[..i])|, |Encoded(t, dict, EncodeRecord(rs[i]))|, i)
  }

  /** The same for any way of writing a record. */
  function Joined(write: BlobRecord -> Bytes, rs: seq<BlobRecord>): Bytes {
    if rs == [] then [] else Joined(write, rs[..|rs| - 1]) + write(rs[|rs| - 1])
  }

  lemma {:induction false} JoinedSplit(write: BlobRecord -> Bytes, a: seq<BlobRecord>, b: seq<BlobRecord>)
    ensures Joined(write, a + b) == Joined(write, a) + Joined(write, b)
  {
    if b == [] {
      assert a + b == a;
      AppendNothing(Joined(write, a));
    } else {
      var n := |b| - 1;
      JoinedSplit(write, a, b[..n]);
      assert (a + b)[..|a + b| - 1] == a + b[..n];
      Assoc3(Joined(write, a), Joined(write, b[..n]), write(b[n]));
    }
  }

  /** How the records of a file with this dictionary are written. */
  function Writer(t: Tools, dict: Bytes): BlobRecord -> Bytes
    requires Lawful(t)
  {
    (r: BlobRecord) => if Storable(r) then Encoded(t, dict, EncodeRecord(r)) else []
  }

  lemma {:induction false} BodyIsJoined(t: Tools, dict: Bytes, rs: seq<BlobRecord>)
    requires Lawful(t) && AllStorable(rs)
    ensures Body(t, dict, rs) == Joined(Writer(t, dict), rs)
  {
    if rs != [] { BodyIsJoined(t, dict, rs[..|rs| - 1]); }
  }

  lemma BodySplit(t: Tools, dict: Bytes, a: seq<BlobRecord>, b: seq<BlobRecord>)
    requires Lawful(t) && AllStorable(a) && AllStorable(b)
    ensures AllStorable(a + b)
    ensures Body(t, dict, a + b) == Body(t, dict, a) + Body(t, dict, b)
  {
    var write := Writer(t, dict);
    BodyIsJoined(t, dict, a);
    BodyIsJoined(t, dict, b);
    BodyIsJoined(t, dict, a + b);
    JoinedSplit(write, a, b);
  }

  lemma {:induction false} BodyLength(t: Tools, dict: Bytes, rs: seq<BlobRecord>)
    requires Lawful(t) && AllStorable(rs)
    ensures |rs| <= |Body(t, dict, rs)|
  {
    if rs != [] { BodyLength(t, dict, rs[..|rs| - 1]); }
  }

  /** Each piece begins where the pieces before it end. */
  lemma JoinedPlace(write: BlobRecord -> Bytes, rs: seq<BlobRecord>, i: nat)
    requires i < |rs|
    ensures var (before, s) := (|Joined(write, rs[..i])|, write(rs[i]));
            && before + |s| == |Joined(write, rs[..i + 1])| <= |Joined(write, rs)|
            && Joined(write, rs)[before..before + |s|] == s
  {
    var (before, s) := (Joined(write, rs[..i]), write(rs[i]));
    assert rs[..i + 1][..i] == rs[..i];
    assert rs == rs[..i + 1] + rs[i + 1..];
    JoinedSplit(write, rs[..i + 1], rs[i + 1..]);
    assert Joined(write, rs) == before + s + Joined(write, rs[i + 1..]);
  }

  /** The record after the first `i` takes the bytes from where they end to where `i + 1` end. */
  lemma HandlePlace(t: Tools, dict: Bytes, rs: seq<BlobRecord>, i: nat)
    requires Lawful(t) && AllStorable(rs) && i < |rs|
    ensures |Body(t, dict, rs[..i])| + |Encoded(t, dict, EncodeRecord(rs[i]))| == |Body(t, dict, rs[..i + 1])|
    ensures |Body(t, dict, rs[..i + 1])| <= |Body(t, dict, rs)|
  {
    BodyIsJoined(t, dict, rs);
    BodyIsJoined(t, dict, rs[..i]);
    BodyIsJoined(t, dict, rs[..i + 1]);
    JoinedPlace(Writer(t, dict), rs, i);
  }

  // ---------------------------------------------------------------- header and footer

  const HEADER_MAGIC: nat := 0x2be0a614
  const FOOTER_MAGIC_LOW: nat := 0x8e39edc6
  const FOOTER_MAGIC_HIGH: nat := 0x2be0a614
  const HEADER_SIZE_V1: nat := 8
  const HEADER_SIZE_V2: nat := 12
  const FOOTER_SIZE: nat := 32
  const BLOCK_TRAILER_SIZE: nat := 5
  const HAS_DICTIONARY: nat := 1

  /** The header the builder writes: version 2, with a flag for the dictionary. */
  function EncodeHeader(hasDict: bool): (r: Bytes)
    ensures |r| == HEADER_SIZE_V2
  {
    PutFixed32(HEADER_MAGIC) + (PutFixed32(2) + PutFixed32(if hasDict then HAS_DICTIONARY else 0))
  }

  /** `BlobFileHeader::DecodeFrom`: header size and whether there is a dictionary. */
  function DecodeHeader(s: Bytes): Option<(nat, bool)> {
    match GetFixed32(s)
    case None => None
    case Some((magic, s1)) =>
      if magic != HEADER_MAGIC then None
      else
        match GetFixed32(s1)
        case None => None
        case Some((version, s2)) =>
          if version == 1 then Some((HEADER_SIZE_V1, false))
          else if version != 2 then None
          else
            match GetFixed32(s2)
            case None => None
            case Some((flags, _)) =>
              if flags > HAS_DICTIONARY then None else Some((HEADER_SIZE_V2, flags == HAS_DICTIONARY))
  }

  lemma HeaderDecodes(hasDict: bool, rest: Bytes)
    ensures DecodeHeader(EncodeHeader(hasDict) + rest) == Some((HEADER_SIZE_V2, hasDict))
  {
    var flags := if hasDict then HAS_DICTIONARY else 0;
    var (a, b, c) := (PutFixed32(HEADER_MAGIC), PutFixed32(2), PutFixed32(flags));
    Assoc3(a, b + c, rest);
    Assoc3(b, c, rest);
    Fixed32RoundTrip(HEADER_MAGIC, b + (c + rest));
    Fixed32RoundTrip(2, c + rest);
    Fixed32RoundTrip(flags, rest);
  }

  lemma {:induction false} VarintLength(v: nat, groups: nat)
    requires groups > 0 && v < Pow128(groups)
    ensures |PutVarint(v)| <= groups
    decreases groups
  {
    if v >= 128 { VarintLength(v / 128, groups - 1); }
  }

  function Zeros(n: nat): (r: Bytes)
    ensures |r| == n
  {
    seq(n, _ => 0)
  }

  /** A block handle padded to its largest length. */
  function PadHandle(h: BlockHandle): (r: Bytes)
    ensures |r| == 2 * VARINT64_BYTES
  {
    var (offset, size) := (Low(h.offset, U64), Low(h.size, U64));
    PowersOf128();
    VarintLength(offset, VARINT64_BYTES);
    VarintLength(size, VARINT64_BYTES);
    var handle := PutVarint(offset) + PutVarint(size);
    handle + Zeros(2 * VARINT64_BYTES - |handle|)
  }

  const FOOTER_MAGIC: Bytes := PutFixed32(FOOTER_MAGIC_LOW) + PutFixed32(FOOTER_MAGIC_HIGH)

  /** `BlobFileFooter::EncodeTo`: the padded handle, the magic number, a checksum of both. */
  function EncodeFooter(t: Tools, h: BlockHandle): (r: Bytes)
    requires Lawful(t)
    ensures |r| == FOOTER_SIZE
  {
    var front := PadHandle(h) + FOOTER_MAGIC;
    front + PutFixed32(t.crc(front))
  }

  function DecodeBlockHandle(s: Bytes): Option<BlockHandle> {
    match GetVarint64(s)
    case None => None
    case Some((offset, s1)) =>
      match GetVarint64(s1)
      case None => None
      case Some((size, _)) => Some(BlockHandle(offset, size))
  }

  /** `BlobFileFooter::DecodeFrom`; the magic number and the checksum must agree. */
  function DecodeFooter(t: Tools, s: Bytes): Option<BlockHandle>
    requires |s| == FOOTER_SIZE
  {
    if DecodeBlockHandle(s).None? then None
    else if GetFixed32(s[20..]).value.0 != FOOTER_MAGIC_LOW then None
    else if GetFixed32(s[24..]).value.0 != FOOTER_MAGIC_HIGH then None
    else if GetFixed32(s[28..]).value.0 != t.crc(s[..28]) then None
    else DecodeBlockHandle(s)
  }

  lemma HandleDecodes(h: BlockHandle, rest: Bytes)
    requires h.offset < U64 && h.size < U64
    ensures DecodeBlockHandle(PadHandle(h) + rest) == Some(h)
  {
    var (offset, size) := (PutVarint(h.offset), PutVarint(h.size));
    var pad := PadHandle(h)[|offset + size|..];
    assert PadHandle(h) + rest == offset + (size + (pad + rest));
    Varint64RoundTrip(h.offset, size + (pad + rest));
    Varint64RoundTrip(h.size, pad + rest);
  }

  lemma FooterRoundTrip(t: Tools, h: BlockHandle)
    requires Lawful(t) && h.offset < U64 && h.size < U64
    ensures DecodeFooter(t, EncodeFooter(t, h)) == Some(h) == DecodeBlockHandle(EncodeFooter(t, h))
  {
    var s := EncodeFooter(t, h);
    var front := PadHandle(h) + FOOTER_MAGIC;
    var crc := PutFixed32(t.crc(front));
    HandleDecodes(h, FOOTER_MAGIC + crc);
    Assoc3(PadHandle(h), FOOTER_MAGIC, crc);
    assert s[20..] == FOOTER_MAGIC + crc;
    Last(front, crc);
    assert s[..28] == front;
    Fixed32RoundTrip(t.crc(front), []);
    AppendNothing(crc);
    assert s[20..] == PutFixed32(FOOTER_MAGIC_LOW) + s[24..] && s[24..] == PutFixed32(FOOTER_MAGIC_HIGH) + crc;
    Fixed32RoundTrip(FOOTER_MAGIC_LOW, s[24..]);
    Fixed32RoundTrip(FOOTER_MAGIC_HIGH, crc);
  }

  // ---------------------------------------------------------------- the finished file

  /** `WriteRawBlock`: the block and its trailer. */
  function Block(t: Tools, b: Bytes): (r: Bytes)
    requires Lawful(t)
    ensures |r| == |b| + BLOCK_TRAILER_SIZE && r[..|b|] == b
  {
    b + ([NO_COMPRESSION] + PutFixed32(t.mask(t.crc(b + [NO_COMPRESSION]))))
  }

  /** Header and records: what is in the file while it is being built. */
  function Front(t: Tools, hasDict: bool, dict: Bytes, rs: seq<BlobRecord>): (r: Bytes)
    requires Lawful(t) && AllStorable(rs)
    ensures |r| == HEADER_SIZE_V2 + |Body(t, dict, rs)|
  {
    EncodeHeader(hasDict) + Body(t, dict, rs)
  }

  /** What `Finish` appends to `front`: dictionary and meta index if there is a dictionary, and the footer. */
  function Back(t: Tools, hasDict: bool, dict: Bytes, front: nat): Bytes
    requires Lawful(t)
  {
    if hasDict then
      var index := t.metaIndex(BlockHandle(front, |dict|));
      Block(t, dict) + (Block(t, index) + EncodeFooter(t, BlockHandle(front + |dict| + BLOCK_TRAILER_SIZE, |index|)))
    else EncodeFooter(t, NULL_BLOCK)
  }

  function Image(t: Tools, hasDict: bool, dict: Bytes, rs: seq<BlobRecord>): Bytes
    requires Lawful(t) && AllStorable(rs)
  {
    var front := Front(t, hasDict, dict, rs);
    front + Back(t, hasDict, dict, |front|)
  }

  function Section(file: Bytes, offset: nat, size: nat): Option<Bytes> {
    if offset + size <= |file| then Some(file[offset..offset + size]) else None
  }

  /** `InitUncompressionDict`. */
  function FindDict(t: Tools, file: Bytes, h: BlockHandle): Option<Bytes> {
    match Section(file, h.offset, h.size)
    case None => None
    case Some(index) =>
      match t.findDict(index)
      case None => None
      case Some(d) => Section(file, d.offset, d.size)
  }

  /** Where the records start and end, and the dictionary they are compressed with. */
  datatype Layout = Layout(start: nat, end: int, dict: Bytes)

  /** The last bytes of a file, where its footer is. */
  function FooterBytes(file: Bytes): (r: Bytes)
    requires |file| >= FOOTER_SIZE
    ensures |r| == FOOTER_SIZE
  {
    file[|file| - FOOTER_SIZE..]
  }

  /** The handle in the footer; what does not decode counts as none. */
  function FooterHandle(file: Bytes): BlockHandle
    requires |file| >= FOOTER_SIZE
  {
    match DecodeBlockHandle(FooterBytes(file)) case None => NULL_BLOCK case Some(h) => h
  }

  function HeaderBytes(file: Bytes): Bytes { if |file| < HEADER_SIZE_V2 then file else file[..HEADER_SIZE_V2] }

  /**
   * `BlobFileIterator::Init`. The end is found by subtracting what follows the records from the
   * file size. A footer that does not decode is not an error here: its handle is used as it is.
   */
  function InitLayout(t: Tools, file: Bytes): Option<Layout> {
    if |file| < FOOTER_SIZE || DecodeHeader(HeaderBytes(file)).None? then None
    else
      var (start, hasDict) := DecodeHeader(HeaderBytes(file)).value;
      var h := FooterHandle(file);
      var end := |file| - FOOTER_SIZE - (if h == NULL_BLOCK then 0 else h.size + BLOCK_TRAILER_SIZE);
      if !hasDict then Some(Layout(start, end, []))
      else
        match FindDict(t, file, h)
        case None => None
        case Some(dict) => Some(Layout(start, end - |dict| - BLOCK_TRAILER_SIZE, dict))
  }

  lemma Middle(a: Bytes, b: Bytes, c: Bytes, n: nat)
    requires n <= |b|
    ensures (a + (b + c))[|a|..|a| + n] == b[..n]
  {}

  lemma Last(a: Bytes, b: Bytes)
    ensures (a + b)[|a|..] == b
  {}

  /** The sections `Finish` appends can be read back where it says they are. */
  lemma BackSections(t: Tools, dict: Bytes, front: Bytes)
    requires Lawful(t)
    ensures var index := t.metaIndex(BlockHandle(|front|, |dict|));
            var at := |front| + |dict| + BLOCK_TRAILER_SIZE;
            var file := front + Back(t, true, dict, |front|);
            && |file| == at + |index| + BLOCK_TRAILER_SIZE + FOOTER_SIZE
            && Section(file, |front|, |dict|) == Some(dict)
            && Section(file, at, |index|) == Some(index)
            && FooterBytes(file) == EncodeFooter(t, BlockHandle(at, |index|))
  {
    var index := t.metaIndex(BlockHandle(|front|, |dict|));
    var (d, x) := (Block(t, dict), Block(t, index));
    var f := EncodeFooter(t, BlockHandle(|front| + |d|, |index|));
    var file := front + (d + (x + f));
    Middle(front, d, x + f, |dict|);
    Assoc3(front, d, x + f);
    Middle(front + d, x, f, |index|);
    Assoc3(front + d, x, f);
    Last((front + d) + x, f);
  }

  lemma PlainBackDecodes(t: Tools, front: Bytes)
    requires Lawful(t)
    ensures var file := front + EncodeFooter(t, NULL_BLOCK);
            DecodeFooter(t, FooterBytes(file)) == Some(NULL_BLOCK) && FooterHandle(file) == NULL_BLOCK
  {
    FooterRoundTrip(t, NULL_BLOCK);
    Last(front, EncodeFooter(t, NULL_BLOCK));
  }

  lemma DictBackDecodes(t: Tools, dict: Bytes, front: Bytes)
    requires Lawful(t) && |front + Back(t, true, dict, |front|)| < U64
    ensures var index := t.metaIndex(BlockHandle(|front|, |dict|));
            var file := front + Back(t, true, dict, |front|);
            && |file| == |front| + |dict| + |index| + 2 * BLOCK_TRAILER_SIZE + FOOTER_SIZE
            && DecodeFooter(t, FooterBytes(file)).Some? && FooterHandle(file).size == |index| > 0
            && FindDict(t, file, FooterHandle(file)) == Some(dict)
  {
    BackSections(t, dict, front);
    FoundIn(t, dict, |front|, front + Back(t, true, dict, |front|));
  }

  /** The same of a file whose sections are known, whatever it is made of. */
  lemma FoundIn(t: Tools, dict: Bytes, at: nat, file: Bytes)
    requires Lawful(t) && |file| < U64
    requires var index := t.metaIndex(BlockHandle(at, |dict|));
             && |file| == at + |dict| + |index| + 2 * BLOCK_TRAILER_SIZE + FOOTER_SIZE
             && Section(file, at, |dict|) == Some(dict)
             && Section(file, at + |dict| + BLOCK_TRAILER_SIZE, |index|) == Some(index)
             && FooterBytes(file) == EncodeFooter(t, BlockHandle(at + |dict| + BLOCK_TRAILER_SIZE, |index|))
    ensures var index := t.metaIndex(BlockHandle(at, |dict|));
            && DecodeFooter(t, FooterBytes(file)).Some? && FooterHandle(file).size == |index| > 0
            && FindDict(t, file, FooterHandle(file)) == Some(dict)
  {
    var index := t.metaIndex(BlockHandle(at, |dict|));
    DictFound(t, file, BlockHandle(at + |dict| + BLOCK_TRAILER_SIZE, |index|), BlockHandle(at, |dict|), index, dict);
  }

  /** A file with this footer, this index and this dictionary where they belong. */
  lemma DictFound(t: Tools, file: Bytes, h: BlockHandle, d: BlockHandle, index: Bytes, dict: Bytes)
    requires Lawful(t) && |file| >= FOOTER_SIZE && h.offset < U64 && h.size < U64
    requires FooterBytes(file) == EncodeFooter(t, h)
    requires Section(file, h.offset, h.size) == Some(index) && t.findDict(index) == Some(d)
    requires Section(file, d.offset, d.size) == Some(dict)
    ensures DecodeFooter(t, FooterBytes(file)) == Some(h) && FooterHandle(file) == h
    ensures FindDict(t, file, h) == Some(dict)
  {
    FooterRoundTrip(t, h);
  }

  /** Footer, length and dictionary of a finished file, whatever its front is. */
  lemma BackDecodes(t: Tools, hasDict: bool, dict: Bytes, front: Bytes)
    requires Lawful(t) && |front + Back(t, hasDict, dict, |front|)| < U64
    ensures var file := front + Back(t, hasDict, dict, |front|);
            && |file| >= FOOTER_SIZE && DecodeFooter(t, FooterBytes(file)).Some?
            && (hasDict ==>
                  && FooterHandle(file).size > 0 && FindDict(t, file, FooterHandle(file)) == Some(dict)
                  && |file| == |front| + |dict| + FooterHandle(file).size + 2 * BLOCK_TRAILER_SIZE + FOOTER_SIZE)
            && (!hasDict ==> FooterHandle(file) == NULL_BLOCK && |file| == |front| + FOOTER_SIZE)
  {
    if hasDict {
      DictBackDecodes(t, dict, front);
    } else {
      PlainBackDecodes(t, front);
    }
  }

  lemma FrontHeader(hasDict: bool, body: Bytes, back: Bytes)
    ensures DecodeHeader(HeaderBytes((EncodeHeader(hasDict) + body) + back)) == Some((HEADER_SIZE_V2, hasDict))
  {
    HeaderDecodes(hasDict, []);
    AppendNothing(EncodeHeader(hasDict));
    assert HeaderBytes((EncodeHeader(hasDict) + body) + back) == EncodeHeader(hasDict);
  }

  lemma LayoutFrom(t: Tools, file: Bytes, hasDict: bool, dict: Bytes, front: nat)
    requires |file| >= FOOTER_SIZE && DecodeHeader(HeaderBytes(file)) == Some((HEADER_SIZE_V2, hasDict))
    requires hasDict ==>
               && FooterHandle(file).size > 0 && FindDict(t, file, FooterHandle(file)) == Some(dict)
               && |file| == front + |dict| + FooterHandle(file).size + 2 * BLOCK_TRAILER_SIZE + FOOTER_SIZE
    requires !hasDict ==> FooterHandle(file) == NULL_BLOCK && |file| == front + FOOTER_SIZE && dict == []
    ensures InitLayout(t, file) == Some(Layout(HEADER_SIZE_V2, front, dict))
  {}

  lemma LayoutOf(t: Tools, hasDict: bool, dict: Bytes, body: Bytes, front: Bytes, back: Bytes)
    requires Lawful(t) && (!hasDict ==> dict == [])
    requires front == EncodeHeader(hasDict) + body && back == Back(t, hasDict, dict, |front|) && |front + back| < U64
    ensures InitLayout(t, front + back) == Some(Layout(HEADER_SIZE_V2, |front|, dict))
  {
    BackDecodes(t, hasDict, dict, front);
    FrontHeader(hasDict, body, back);
    LayoutFrom(t, front + back, hasDict, dict, |front|);
  }

  lemma ImageSplit(t: Tools, hasDict: bool, dict: Bytes, rs: seq<BlobRecord>)
    requires Lawful(t) && AllStorable(rs)
    ensures var front := EncodeHeader(hasDict) + Body(t, dict, rs);
            Image(t, hasDict, dict, rs) == front + Back(t, hasDict, dict, |front|)
  {}

  /** The layout of a finished file is found again from its bytes. */
  lemma ImageLayout(t: Tools, hasDict: bool, dict: Bytes, rs: seq<BlobRecord>)
    requires Lawful(t) && AllStorable(rs) && |Image(t, hasDict, dict, rs)| < U64
    requires !hasDict ==> dict == []
    ensures InitLayout(t, Image(t, hasDict, dict, rs)) ==
            Some(Layout(HEADER_SIZE_V2, HEADER_SIZE_V2 + |Body(t, dict, rs)|, dict))
  {
    var body := Body(t, dict, rs);
    var front := EncodeHeader(hasDict) + body;
    ImageSplit(t, hasDict, dict, rs);
    LayoutOf(t, hasDict, dict, body, front, Back(t, hasDict, dict, |front|));
    assert |front| == HEADER_SIZE_V2 + |body|;
  }

  /** What is found in the middle of a file stays there whatever surrounds it. */
  lemma SectionOf(head: Bytes, body: Bytes, back: Bytes, lo: nat, s: Bytes)
    requires lo + |s| <= |body| && body[lo..lo + |s|] == s
    ensures Section((head + body) + back, |head| + lo, |s|) == Some(s)
  {
    var file := (head + body) + back;
    assert file[|head|..|head| + |body|] == body;
    SliceOfSlice(file, body, |head|, lo, lo + |s|);
  }

  lemma JoinedSection(write: BlobRecord -> Bytes, head: Bytes, rs: seq<BlobRecord>, back: Bytes, i: nat,
                      body: Bytes, before: nat, s: Bytes)
    requires i < |rs| && body == Joined(write, rs) && before == |Joined(write, rs[..i])| && s == write(rs[i])
    ensures Section((head + body) + back, |head| + before, |s|) == Some(s)
  {
    JoinedPlace(write, rs, i);
    SectionOf(head, body, back, before, s);
  }

  /** Record `i` lies in the finished file where its handle says. */
  lemma ImagePlace(t: Tools, hasDict: bool, dict: Bytes, rs: seq<BlobRecord>, i: nat)
    requires Lawful(t) && AllStorable(rs) && i < |rs|
    ensures var h := HandleOf(t, dict, rs, HEADER_SIZE_V2, i);
            Section(Image(t, hasDict, dict, rs), h.offset, h.size) == Some(Encoded(t, dict, EncodeRecord(rs[i])))
  {
    var back := Back(t, hasDict, dict, |EncodeHeader(hasDict) + Body(t, dict, rs)|);
    ImageSplit(t, hasDict, dict, rs);
    BodySection(t, EncodeHeader(hasDict), dict, rs, back, i, Body(t, dict, rs), |Body(t, dict, rs[..i])|,
                Encoded(t, dict, EncodeRecord(rs[i])));
  }

  lemma BodySection(t: Tools, head: Bytes, dict: Bytes, rs: seq<BlobRecord>, back: Bytes, i: nat,
                    body: Bytes, before: nat, s: Bytes)
    requires Lawful(t) && AllStorable(rs) && i < |rs|
    requires body == Body(t, dict, rs) && before == |Body(t, dict, rs[..i])|
    requires s == Encoded(t, dict, EncodeRecord(rs[i]))
    ensures Section((head + body) + back, |head| + before, |s|) == Some(s)
  {
    Pieces(t, dict, rs, i);
    JoinedSection(Writer(t, dict), head, rs, back, i, body, before, s);
  }

  lemma Pieces(t: Tools, dict: Bytes, rs: seq<BlobRecord>, i: nat)
    requires Lawful(t) && AllStorable(rs) && i < |rs|
    ensures Body(t, dict, rs) == Joined(Writer(t, dict), rs)
    ensures Body(t, dict, rs[..i]) == Joined(Writer(t, dict), rs[..i])
    ensures Encoded(t, dict, EncodeRecord(rs[i])) == Writer(t, dict)(rs[i])
  {
    BodyIsJoined(t, dict, rs);
    BodyIsJoined(t, dict, rs[..i]);
  }

  /** Reading at the handle of record `i` of a finished file gives record `i`. */
  lemma ImageReads(t: Tools, hasDict: bool, dict: Bytes, rs: seq<BlobRecord>, i: nat)
    requires Lawful(t) && AllStorable(rs) && i < |rs|
    ensures var h := HandleOf(t, dict, rs, HEADER_SIZE_V2, i);
            ReadRecord(t, dict, Image(t, hasDict, dict, rs), h.offset) == Some((rs[i], h.size))
  {
    ImagePlace(t, hasDict, dict, rs, i);
    EncodedReads(t, dict, rs[i], Image(t, hasDict, dict, rs), HandleOf(t, dict, rs, HEADER_SIZE_V2, i).offset);
  }

  // ---------------------------------------------------------------- point reads

  /** `BlobFileReader::Open` and `Get`; here the footer must decode. */
  function GetRecord(t: Tools, file: Bytes, h: BlobHandle): Option<BlobRecord> {
    if |file| < FOOTER_SIZE || DecodeFooter(t, FooterBytes(file)).None? || InitLayout(t, file).None? then None
    else
      match Section(file, h.offset, h.size)
      case None => None
      case Some(bytes) =>
        match ReadRecord(t, InitLayout(t, file).value.dict, bytes, 0) case None => None case Some((r, _)) => Some(r)
  }

  lemma GetFrom(t: Tools, file: Bytes, layout: Layout, r: BlobRecord, h: BlobHandle)
    requires Lawful(t) && Storable(r)
    requires |file| >= FOOTER_SIZE && DecodeFooter(t, FooterBytes(file)).Some? && InitLayout(t, file) == Some(layout)
    requires Section(file, h.offset, h.size) == Some(Encoded(t, layout.dict, EncodeRecord(r)))
    ensures GetRecord(t, file, h) == Some(r)
  {
    var s := Encoded(t, layout.dict, EncodeRecord(r));
    assert s[0..0 + |s|] == s;
    EncodedReads(t, layout.dict, r, s, 0);
  }

  /** The handle the builder gave out reads back the record it was given for. */
  lemma HandleResolves(t: Tools, hasDict: bool, dict: Bytes, rs: seq<BlobRecord>, i: nat)
    requires Lawful(t) && AllStorable(rs) && i < |rs| && |Image(t, hasDict, dict, rs)| < U64
    requires !hasDict ==> dict == []
    ensures GetRecord(t, Image(t, hasDict, dict, rs), HandleOf(t, dict, rs, HEADER_SIZE_V2, i)) == Some(rs[i])
  {
    BackDecodes(t, hasDict, dict, Front(t, hasDict, dict, rs));
    ImageLayout(t, hasDict, dict, rs);
    ImagePlace(t, hasDict, dict, rs, i);
    var file := Image(t, hasDict, dict, rs);
    GetFrom(t, file, InitLayout(t, file).value, rs[i], HandleOf(t, dict, rs, HEADER_SIZE_V2, i));
  }
}
