/**
 The .jscope container: the file header with its JSON, length-prefixed frame
 records, then an index and a footer that may be absent. Structures are written
 as they lie in memory, so the layouts below are byte offsets.
 */
module CaptureFormat {
  import opened Bytes
  import opened Sequences

  const MAGIC: seq<Byte> := [0x4A, 0x53, 0x43, 0x4F, 0x50, 0x45, 0x30, 0x31]
  const FOOTER_MAGIC: seq<Byte> := [0x4A, 0x53, 0x43, 0x50, 0x45, 0x4E, 0x44, 0x00]
  const FRAME_MAGIC: nat := 0x304D5246
  const INDEX_MAGIC: nat := 0x30584449
  const VERSION: nat := 1
  const FLAG_NONE: nat := 0

  const FILE_HEADER_BYTES: nat := 24
  const RECORD_BYTES: nat := 12
  const ENTRY_BYTES: nat := 24
  const FOOTER_BYTES: nat := 24

  // JScopeFrameHeader as it lies in memory: only these fields matter to the
  // container, the rest is carried along as bytes.
  const FRAME_HEADER_BYTES: nat := 152
  const START_SAMPLE_AT: nat := 8
  const TIMESTAMP_AT: nat := 16
  const SAMPLE_COUNT_AT: nat := 32
  const CHANNEL_COUNT_AT: nat := 36

  /** A timestamp is kept as the 64 bits of its double. */
  datatype IndexEntry = IndexEntry(fileOffset: nat, timestampBits: nat, startSampleIndex: nat)

  // ---- frames ---------------------------------------------------------------

  type FrameHeader = h: seq<Byte> | |h| == FRAME_HEADER_BYTES witness seq(FRAME_HEADER_BYTES, _ => 0)

  function ChannelCount(h: FrameHeader): nat { h[CHANNEL_COUNT_AT] }
  function SampleCount(h: FrameHeader): nat { FieldAt(h, SAMPLE_COUNT_AT, 4) }
  function TimestampBits(h: FrameHeader): nat { FieldAt(h, TIMESTAMP_AT, 8) }
  function StartSampleIndex(h: FrameHeader): nat { FieldAt(h, START_SAMPLE_AT, 8) }

  /** An acquisition: its header and one plane of 16-bit samples per channel. */
  datatype Frame = Frame(header: FrameHeader, planes: seq<seq<Byte>>)

  /** A frame's memory holds the planes its header announces. */
  predicate WellFormed(f: Frame) {
    && |f.planes| == ChannelCount(f.header)
    && forall p :: 0 <= p < |f.planes| ==> |f.planes[p]| == 2 * SampleCount(f.header)
  }

  /** The size of the sample data as the writer computes it, before it is cut to 32 bits. */
  function PayloadBytes(h: FrameHeader): nat { ChannelCount(h) * SampleCount(h) * 2 }

  /** The record's length field can hold the payload. */
  predicate Fits(f: Frame) { PayloadBytes(f.header) < TWO_32 }

  lemma PayloadIsThePlanes(f: Frame)
    requires WellFormed(f)
    ensures |Flatten(f.planes)| == PayloadBytes(f.header)
  {
    FlattenLength(f.planes, 2 * SampleCount(f.header));
  }

  // ---- encoding -------------------------------------------------------------

  function FileHeader(json: seq<Byte>): (s: seq<Byte>)
    ensures |s| == FILE_HEADER_BYTES
  {
    MAGIC + LittleEndian(FILE_HEADER_BYTES, 4) + LittleEndian(VERSION, 4)
    + LittleEndian(FLAG_NONE, 4) + LittleEndian(|json|, 4)
  }

  function FileStart(json: seq<Byte>): seq<Byte> { FileHeader(json) + json }

  function RecordPrefix(payload: nat): (s: seq<Byte>)
    ensures |s| == RECORD_BYTES
  {
    LittleEndian(FRAME_MAGIC, 4) + LittleEndian(FRAME_HEADER_BYTES, 4) + LittleEndian(payload, 4)
  }

  function FrameBytes(f: Frame): seq<Byte> { f.header + Flatten(f.planes) }

  function Record(f: Frame): (s: seq<Byte>)
    ensures |s| >= RECORD_BYTES + FRAME_HEADER_BYTES
  {
    RecordPrefix(PayloadBytes(f.header)) + FrameBytes(f)
  }

  function RecordList(frames: seq<Frame>): (rs: seq<seq<Byte>>)
    ensures |rs| == |frames|
  {
    seq(|frames|, i requires 0 <= i < |frames| => Record(frames[i]))
  }

  function Records(frames: seq<Frame>): seq<Byte> { Flatten(RecordList(frames)) }

  function EntryFor(f: Frame, offset: nat): IndexEntry {
    IndexEntry(offset, TimestampBits(f.header), StartSampleIndex(f.header))
  }

  /** The index of frames whose records are laid end to end from `base`. */
  function Entries(frames: seq<Frame>, base: nat): (es: seq<IndexEntry>)
    ensures |es| == |frames|
  {
    seq(|frames|, i requires 0 <= i < |frames| => EntryFor(frames[i], base + |Records(frames[..i])|))
  }

  function EncodeEntry(e: IndexEntry): (s: seq<Byte>)
    ensures |s| == ENTRY_BYTES
  {
    LittleEndian(e.fileOffset, 8) + LittleEndian(e.timestampBits, 8) + LittleEndian(e.startSampleIndex, 8)
  }

  function EncodeEntries(es: seq<IndexEntry>): (s: seq<Byte>)
    ensures |s| == ENTRY_BYTES * |es|
  {
    var list := seq(|es|, i requires 0 <= i < |es| => EncodeEntry(es[i]));
    FlattenLength(list, ENTRY_BYTES);
    Flatten(list)
  }

  function Footer(indexOffset: nat, count: nat): (s: seq<Byte>)
    ensures |s| == FOOTER_BYTES
  {
    FOOTER_MAGIC + LittleEndian(indexOffset, 8) + LittleEndian(count, 8)
  }

  function IndexBlock(es: seq<IndexEntry>): (s: seq<Byte>)
    ensures |s| == 12 + ENTRY_BYTES * |es|
  {
    LittleEndian(INDEX_MAGIC, 4) + LittleEndian(|es|, 8) + EncodeEntries(es)
  }

  /** A file with its header and the records of `frames`, nothing after them. */
  function OpenImage(json: seq<Byte>, frames: seq<Frame>): seq<Byte> {
    FileStart(json) + Records(frames)
  }

  function TailFor(json: seq<Byte>, frames: seq<Frame>): (s: seq<Byte>)
    ensures |s| == 12 + ENTRY_BYTES * |frames| + FOOTER_BYTES
  {
    IndexBlock(Entries(frames, |FileStart(json)|)) + Footer(|OpenImage(json, frames)|, |frames|)
  }

  /** The whole of a file that was closed properly. */
  function ClosedImage(json: seq<Byte>, frames: seq<Frame>): seq<Byte> {
    OpenImage(json, frames) + TailFor(json, frames)
  }

  // ---- records laid end to end -------------------------------------------------

  lemma RecordsConcat(a: seq<Frame>, b: seq<Frame>)
    ensures Records(a + b) == Records(a) + Records(b)
  {
    assert RecordList(a + b) == RecordList(a) + RecordList(b);
    FlattenConcat(RecordList(a), RecordList(b));
  }

  lemma RecordsSingle(f: Frame)
    ensures Records([f]) == Record(f)
  {
    assert RecordList([f]) == [Record(f)];
    FlattenSingle(Record(f));
  }

  lemma RecordsSnoc(frames: seq<Frame>, f: Frame)
    ensures Records(frames + [f]) == Records(frames) + Record(f)
  {
    RecordsConcat(frames, [f]);
    RecordsSingle(f);
  }

  lemma EntriesConcat(a: seq<Frame>, b: seq<Frame>, base: nat)
    ensures Entries(a + b, base) == Entries(a, base) + Entries(b, base + |Records(a)|)
  {
    var whole, parts := Entries(a + b, base), Entries(a, base) + Entries(b, base + |Records(a)|);
    forall i | 0 <= i < |a + b| ensures whole[i] == parts[i] {
      EntryInConcat(a, b, base, i);
    }
  }

  lemma EntryInConcat(a: seq<Frame>, b: seq<Frame>, base: nat, i: nat)
    requires i < |a + b|
    ensures Entries(a + b, base)[i]
         == if i < |a| then Entries(a, base)[i] else Entries(b, base + |Records(a)|)[i - |a|]
  {
    hide Records, EntryFor;
    if i < |a| {
      assert (a + b)[..i] == a[..i];
    } else {
      assert (a + b)[..i] == a + b[..i - |a|];
      RecordsConcat(a, b[..i - |a|]);
    }
  }

  lemma EntriesSnoc(frames: seq<Frame>, f: Frame, base: nat)
    ensures Entries(frames + [f], base) == Entries(frames, base) + [EntryFor(f, base + |Records(frames)|)]
  {
    assert [f][..0] == [];
    EntriesConcat(frames, [f], base);
  }

  lemma EntriesTake(frames: seq<Frame>, k: nat, base: nat)
    requires k <= |frames|
    ensures Entries(frames[..k], base) == Entries(frames, base)[..k]
  {
    assert frames[..k] + frames[k..] == frames;
    EntriesConcat(frames[..k], frames[k..], base);
  }

  // ---- fields read back -------------------------------------------------------

  lemma ThreeFields(a: seq<Byte>, b: seq<Byte>, c: seq<Byte>)
    ensures var s := a + b + c;
            && s[..|a|] == a
            && FieldAt(s, 0, |a|) == FromLittleEndian(a)
            && FieldAt(s, |a|, |b|) == FromLittleEndian(b)
            && FieldAt(s, |a| + |b|, |c|) == FromLittleEndian(c)
  {
    ThreeParts(a, b, c);
  }

  lemma RecordPrefixReadsBack(payload: nat)
    ensures var r := RecordPrefix(payload);
            && FieldAt(r, 0, 4) == FRAME_MAGIC
            && FieldAt(r, 4, 4) == FRAME_HEADER_BYTES
            && FieldAt(r, 8, 4) == payload % TWO_32
  {
    Widths();
    var a, b, c := LittleEndian(FRAME_MAGIC, 4), LittleEndian(FRAME_HEADER_BYTES, 4), LittleEndian(payload, 4);
    ThreeFields(a, b, c);
    LittleEndianExact(FRAME_MAGIC, 4);
    LittleEndianExact(FRAME_HEADER_BYTES, 4);
    LittleEndianRoundTrip(payload, 4);
  }

  lemma EntryReadsBack(e: IndexEntry)
    requires e.fileOffset < TWO_64 && e.timestampBits < TWO_64 && e.startSampleIndex < TWO_64
    ensures var s := EncodeEntry(e);
            e == IndexEntry(FieldAt(s, 0, 8), FieldAt(s, 8, 8), FieldAt(s, 16, 8))
  {
    Widths();
    var a, b, c := LittleEndian(e.fileOffset, 8), LittleEndian(e.timestampBits, 8), LittleEndian(e.startSampleIndex, 8);
    ThreeFields(a, b, c);
    LittleEndianExact(e.fileOffset, 8);
    LittleEndianExact(e.timestampBits, 8);
    LittleEndianExact(e.startSampleIndex, 8);
  }

  lemma FooterReadsBack(indexOffset: nat, count: nat)
    requires indexOffset < TWO_64 && count < TWO_64
    ensures var s := Footer(indexOffset, count);
            s[..8] == FOOTER_MAGIC && FieldAt(s, 8, 8) == indexOffset && FieldAt(s, 16, 8) == count
  {
    Widths();
    ThreeFields(FOOTER_MAGIC, LittleEndian(indexOffset, 8), LittleEndian(count, 8));
    LittleEndianExact(indexOffset, 8);
    LittleEndianExact(count, 8);
  }

  lemma {:induction false} FieldIsBounded(s: seq<Byte>)
    ensures FromLittleEndian(s) < Pow256(|s|)
  {
    if s != [] {
      FieldIsBounded(s[1..]);
    }
  }

  lemma HeaderFieldsFit(h: FrameHeader)
    ensures TimestampBits(h) < TWO_64 && StartSampleIndex(h) < TWO_64 && SampleCount(h) < TWO_32
  {
    Widths();
    FieldIsBounded(h[TIMESTAMP_AT..TIMESTAMP_AT + 8]);
    FieldIsBounded(h[START_SAMPLE_AT..START_SAMPLE_AT + 8]);
    FieldIsBounded(h[SAMPLE_COUNT_AT..SAMPLE_COUNT_AT + 4]);
  }

  // ---- the layout, byte by byte ---------------------------------------------------

  /** Where the fields of a frame header lie. */
  lemma FrameHeaderLayout(h: FrameHeader)
    ensures |h| == 152 && ChannelCount(h) == h[36]
    ensures StartSampleIndex(h) == FromLittleEndian(h[8..16]) && TimestampBits(h) == FromLittleEndian(h[16..24])
    ensures SampleCount(h) == FromLittleEndian(h[32..36])
  {
  }

  /** The file header without metadata, and an index block without entries. */
  lemma EmptyRecordingLayout()
    ensures FileHeader([]) == [0x4A, 0x53, 0x43, 0x4F, 0x50, 0x45, 0x30, 0x31]
                              + [24, 0, 0, 0] + [1, 0, 0, 0] + [0, 0, 0, 0] + [0, 0, 0, 0]
    ensures IndexBlock([]) == [0x49, 0x44, 0x58, 0x30] + [0, 0, 0, 0, 0, 0, 0, 0]
  {
    hide LittleEndian;
    SmallNumber(24);
    SmallNumber(1);
    SmallNumber(0);
    IndexMagicBytes();
    WideNumber(0);
  }

  /** The start of a record of 300 payload bytes, an index entry, and a footer. */
  lemma RecordLayout()
    ensures RecordPrefix(300) == [0x46, 0x52, 0x4D, 0x30] + [152, 0, 0, 0] + [44, 1, 0, 0]
    ensures EncodeEntry(IndexEntry(24, 2, 3))
         == [24, 0, 0, 0, 0, 0, 0, 0] + [2, 0, 0, 0, 0, 0, 0, 0] + [3, 0, 0, 0, 0, 0, 0, 0]
    ensures Footer(24, 1) == [0x4A, 0x53, 0x43, 0x50, 0x45, 0x4E, 0x44, 0x00]
                             + [24, 0, 0, 0, 0, 0, 0, 0] + [1, 0, 0, 0, 0, 0, 0, 0]
  {
    hide LittleEndian;
    SmallNumber(152);
    FrameMagicBytes();
    WideNumber(24);
    WideNumber(1);
    WideNumber(2);
    WideNumber(3);
  }

  lemma SmallNumber(v: Byte)
    ensures LittleEndian(v, 4) == [v, 0, 0, 0]
  {
    assert LittleEndian(0, 1) == [0] && LittleEndian(0, 2) == [0, 0] && LittleEndian(0, 3) == [0, 0, 0];
  }

  lemma WideNumber(v: Byte)
    ensures LittleEndian(v, 8) == [v, 0, 0, 0, 0, 0, 0, 0]
  {
    assert LittleEndian(0, 1) == [0] && LittleEndian(0, 2) == [0, 0] && LittleEndian(0, 3) == [0, 0, 0];
    SmallNumber(0);
    assert LittleEndian(0, 5) == [0, 0, 0, 0, 0] && LittleEndian(0, 6) == [0, 0, 0, 0, 0, 0];
    assert LittleEndian(0, 7) == [0, 0, 0, 0, 0, 0, 0];
  }

  lemma IndexMagicBytes()
    ensures LittleEndian(INDEX_MAGIC, 4) == [0x49, 0x44, 0x58, 0x30]
  {
    assert LittleEndian(0x30, 1) == [0x30] && LittleEndian(0x3058, 2) == [0x58, 0x30];
    assert LittleEndian(0x305844, 3) == [0x44, 0x58, 0x30];
  }

  lemma FrameMagicBytes()
    ensures LittleEndian(FRAME_MAGIC, 4) == [0x46, 0x52, 0x4D, 0x30] && LittleEndian(300, 4) == [44, 1, 0, 0]
  {
    assert LittleEndian(0x30, 1) == [0x30] && LittleEndian(0x304D, 2) == [0x4D, 0x30];
    assert LittleEndian(0x304D52, 3) == [0x52, 0x4D, 0x30];
    assert LittleEndian(0, 1) == [0] && LittleEndian(0, 2) == [0, 0] && LittleEndian(1, 3) == [1, 0, 0];
  }
}
